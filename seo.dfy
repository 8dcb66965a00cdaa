/**
 * The two SEO checks: `has_meta_tags` (the Content-Type, title, description and
 * viewport tags Moz recommends) and `has_socialmedia_tags` (the Twitter Card and
 * Open Graph tags).
 *
 * The parsed page is abstracted to what the checks read from it: for each
 * attribute/value pair, the `content` of the first `<meta>` tag carrying it (`None`
 * when there is no such tag), and the text of the `<title>` tag. A value counts as
 * present only when it is a non-empty string, as Python truthiness has it.
 */
module Seo {
  import opened Text

  datatype Option<T> = None | Some(value: T)

  /** One attribute/value pair a `<meta>` tag is looked up by, like `name="description"`. */
  datatype Attr = Attr(key: string, value: string)

  /** The parsed page, as the checks see it. */
  datatype Page = Page(meta: Attr -> Option<string>, title: Option<string>)

  datatype Status = Success | Warning | Error

  /** `if not x` on a looked-up value: missing when there is no value or it is empty. */
  predicate Present(o: Option<string>)
  {
    o.Some? && o.value != []
  }

  // ---------------------------------------------------------------------------
  // Decimal rendering of lengths (`"%s" % len(...)`)
  // ---------------------------------------------------------------------------

  function DigitChar(d: nat): char
    requires d < 10
  {
    ('0' as int + d) as char
  }

  /** The decimal numeral of `n`, as `%s` renders an `int`. */
  function NatToString(n: nat): (r: string)
    ensures r != [] && forall i :: 0 <= i < |r| ==> IsDigit(r[i])
    ensures |r| > 1 ==> r[0] != '0'
  {
    if n < 10 then [DigitChar(n)] else NatToString(n / 10) + [DigitChar(n % 10)]
  }

  /** The value of a numeral. */
  function ParseNat(s: string): nat
    requires forall i :: 0 <= i < |s| ==> IsDigit(s[i])
  {
    if s == [] then 0
    else
      assert IsDigit(s[|s| - 1]);
      10 * ParseNat(s[..|s| - 1]) + (s[|s| - 1] as int - '0' as int)
  }

  /** The rendered length reads back as the length. */
  lemma {:induction false} NatToStringRoundTrip(n: nat)
    ensures ParseNat(NatToString(n)) == n
  {
    if n >= 10 {
      NatToStringRoundTrip(n / 10);
      var r := NatToString(n);
      assert r[..|r| - 1] == NatToString(n / 10);
    }
  }

  // ---------------------------------------------------------------------------
  // has_meta_tags
  // ---------------------------------------------------------------------------

  const ContentTypeUpper: Attr := Attr("http-equiv", "Content-Type")
  const ContentTypeLower: Attr := Attr("http-equiv", "content-type")
  const DescriptionTag: Attr := Attr("name", "description")
  const ViewportTag: Attr := Attr("name", "viewport")

  /** The messages `has_meta_tags` can report. */
  datatype MetaMessage =
    | MissingContentType
    | MissingTitle
    | MissingDescription
    | MissingViewport
    | WellStructured
    | TitleTooLong(length: nat)
    | DescriptionTooLong(length: nat)

  /** The text of each message, with lengths rendered in decimal. */
  function MetaText(m: MetaMessage): string
  {
    match m
    case MissingContentType => "Page is missing the recommended Content-Type meta tag."
    case MissingTitle => "Page is missing the title tag."
    case MissingDescription => "Page is missing the description meta tag."
    case MissingViewport => "Page is missing the recommended viewport meta tag."
    case WellStructured => "Page contains properly structured article."
    case TitleTooLong(n) =>
      "WARNING: Title length should be 60-70 characters, currently it is " + NatToString(n) + "."
    case DescriptionTooLong(n) =>
      "WARNING: Description length should be no more than 155 characters, currently it is "
      + NatToString(n) + "."
  }

  function MetaTexts(ms: seq<MetaMessage>): (r: seq<string>)
    ensures |r| == |ms| && forall k :: 0 <= k < |ms| ==> r[k] == MetaText(ms[k])
  {
    seq(|ms|, k requires 0 <= k < |ms| => MetaText(ms[k]))
  }

  /**
   * The Content-Type value: the tag spelled `Content-Type` when the page has one,
   * otherwise the one spelled `content-type`. A `Content-Type` tag with empty content
   * hides a `content-type` tag.
   */
  function ContentType(page: Page): (r: Option<string>)
    ensures page.meta(ContentTypeUpper).Some? ==> r == page.meta(ContentTypeUpper)
    ensures page.meta(ContentTypeUpper).None? ==> r == page.meta(ContentTypeLower)
  {
    match page.meta(ContentTypeUpper)
    case Some(c) => Some(c)
    case None => page.meta(ContentTypeLower)
  }

  /** All four recommended tags are there with non-empty values. */
  predicate MetaTagsPresent(page: Page)
  {
    Present(ContentType(page)) && Present(page.title)
    && Present(page.meta(DescriptionTag)) && Present(page.meta(ViewportTag))
  }

  /** The title is longer than 70 characters or the description longer than 155. */
  predicate TooLong(page: Page)
    requires MetaTagsPresent(page)
  {
    |page.title.value| > 70 || |page.meta(DescriptionTag).value| > 155
  }

  /** One message per missing tag, in the order Content-Type, title, description, viewport. */
  function MissingMetaMessages(page: Page): seq<MetaMessage>
  {
    (if Present(ContentType(page)) then [] else [MissingContentType])
    + (if Present(page.title) then [] else [MissingTitle])
    + (if Present(page.meta(DescriptionTag)) then [] else [MissingDescription])
    + (if Present(page.meta(ViewportTag)) then [] else [MissingViewport])
  }

  /** The messages `has_meta_tags` joins into its report. */
  function MetaMessages(page: Page): seq<MetaMessage>
  {
    MissingMetaMessages(page)
    + if !MetaTagsPresent(page) then []
      else
        var title, description := page.title.value, page.meta(DescriptionTag).value;
        [WellStructured]
        + (if |title| > 70 then [TitleTooLong(|title|)] else [])
        + (if |description| > 155 then [DescriptionTooLong(|description|)] else [])
  }

  /** The `tags` entry of the data `has_meta_tags` returns when every tag is there. */
  function MetaData(page: Page): map<string, string>
    requires MetaTagsPresent(page)
  {
    map["contentType" := ContentType(page).value, "title" := page.title.value,
        "description" := page.meta(DescriptionTag).value, "viewport" := page.meta(ViewportTag).value]
  }

  /**
   * `has_meta_tags`: whether the page has all four recommended tags; the status
   * (error when a tag is missing, warning when all are there but the title or the
   * description is too long, success otherwise); the messages joined with spaces;
   * and the four values under `tags` when all are there, nothing otherwise.
   */
  method HasMetaTags(page: Page)
    returns (correct: bool, status: Status, message: string, data: map<string, map<string, string>>)
    ensures correct <==> MetaTagsPresent(page)
    ensures status == Error <==> !MetaTagsPresent(page)
    ensures status == Warning <==> MetaTagsPresent(page) && TooLong(page)
    ensures message == Join(MetaTexts(MetaMessages(page)), " ")
    ensures !MetaTagsPresent(page) ==> data == map[]
    ensures MetaTagsPresent(page) ==> data == map["tags" := MetaData(page)]
  {
    correct := false;
    var messages: seq<MetaMessage> := [];
    data := map[];

    var contentType := ContentType(page);
    if !Present(contentType) {
      messages := messages + [MissingContentType];
    }
    var title := page.title;
    if !Present(title) {
      messages := messages + [MissingTitle];
    }
    var description := page.meta(DescriptionTag);
    if !Present(description) {
      messages := messages + [MissingDescription];
    }
    var viewport := page.meta(ViewportTag);
    if !Present(viewport) {
      messages := messages + [MissingViewport];
    }
    assert messages == MissingMetaMessages(page);

    if Present(contentType) && Present(title) && Present(description) && Present(viewport) {
      status := Success;
      correct := true;
      messages := messages + [WellStructured];
      if |title.value| > 70 {
        messages := messages + [TitleTooLong(|title.value|)];
        status := Warning;
      }
      if |description.value| > 155 {
        messages := messages + [DescriptionTooLong(|description.value|)];
        status := Warning;
      }
      data := map["tags" := map["contentType" := contentType.value, "title" := title.value,
                                "description" := description.value, "viewport" := viewport.value]];
    } else {
      status := Error;
    }
    assert messages == MetaMessages(page);
    message := Join(MetaTexts(messages), " ");
  }

  /**
   * What the report says: when a tag is missing, exactly one message per missing tag
   * and nothing else; when all are there, the well-structured message first, then
   * one warning per over-long value. There is always at least one message.
   */
  lemma MetaMessagesShape(page: Page)
    ensures MetaMessages(page) != []
    ensures !MetaTagsPresent(page) ==> MetaMessages(page) == MissingMetaMessages(page)
    ensures MetaTagsPresent(page) ==> MetaMessages(page)[0] == WellStructured
    ensures MetaTagsPresent(page) ==>
              |MetaMessages(page)| == 1 + (if |page.title.value| > 70 then 1 else 0)
                                        + (if |page.meta(DescriptionTag).value| > 155 then 1 else 0)
  {
    assert MetaTagsPresent(page) ==> MissingMetaMessages(page) == [];
  }

  /** Each missing-tag message is reported exactly when that tag is missing. */
  lemma MissingMessagesReported(page: Page)
    ensures MissingContentType in MetaMessages(page) <==> !Present(ContentType(page))
    ensures MissingTitle in MetaMessages(page) <==> !Present(page.title)
    ensures MissingDescription in MetaMessages(page) <==> !Present(page.meta(DescriptionTag))
    ensures MissingViewport in MetaMessages(page) <==> !Present(page.meta(ViewportTag))
  {
    var missing := MissingMetaMessages(page);
    if MetaTagsPresent(page) {
      assert missing == [];
    } else {
      assert MetaMessages(page) == missing;
    }
  }

  /**
   * The `or` picks a tag, not a value: a `Content-Type` tag decides on its own,
   * and an empty one is reported missing whatever a `content-type` tag holds. Only
   * when there is no `Content-Type` tag does the `content-type` tag count.
   */
  lemma ContentTypeLookup(page: Page)
    ensures page.meta(ContentTypeUpper).Some? ==>
              (MissingContentType in MetaMessages(page) <==> page.meta(ContentTypeUpper) == Some(""))
    ensures page.meta(ContentTypeUpper).None? ==>
              (MissingContentType in MetaMessages(page) <==> !Present(page.meta(ContentTypeLower)))
  {
    MissingMessagesReported(page);
  }

  /** The quirk on an example: an empty `Content-Type` tag hides a filled-in `content-type` tag. */
  lemma EmptyUpperHidesLower(page: Page)
    requires page.meta(ContentTypeUpper) == Some("")
    requires page.meta(ContentTypeLower) == Some("text/html; charset=utf-8")
    ensures MissingContentType in MetaMessages(page)
  {
    ContentTypeLookup(page);
  }

  /** The well-structured message is reported exactly when all four tags are there. */
  lemma WellStructuredReported(page: Page)
    ensures WellStructured in MetaMessages(page) <==> MetaTagsPresent(page)
  {
    var missing := MissingMetaMessages(page);
    assert WellStructured !in missing;
    if MetaTagsPresent(page) {
      assert missing == [];
      assert MetaMessages(page)[0] == WellStructured;
    }
  }

  /** Each length warning is reported exactly when all tags are there and the value is too long. */
  lemma WarningsReported(page: Page)
    ensures (exists n :: TitleTooLong(n) in MetaMessages(page))
              <==> MetaTagsPresent(page) && |page.title.value| > 70
    ensures (exists n :: DescriptionTooLong(n) in MetaMessages(page))
              <==> MetaTagsPresent(page) && |page.meta(DescriptionTag).value| > 155
  {
    var missing := MissingMetaMessages(page);
    assert forall n :: TitleTooLong(n) !in missing && DescriptionTooLong(n) !in missing;
    if MetaTagsPresent(page) {
      var title, description := page.title.value, page.meta(DescriptionTag).value;
      if |title| > 70 {
        assert TitleTooLong(|title|) in MetaMessages(page);
      }
      if |description| > 155 {
        assert DescriptionTooLong(|description|) in MetaMessages(page);
      }
    }
  }

  /** The warnings report the actual lengths. */
  lemma WarningsReportLengths(page: Page, n: nat)
    ensures TitleTooLong(n) in MetaMessages(page) ==> n == |page.title.value|
    ensures DescriptionTooLong(n) in MetaMessages(page) ==> n == |page.meta(DescriptionTag).value|
  {
  }

  // ---------------------------------------------------------------------------
  // has_socialmedia_tags
  // ---------------------------------------------------------------------------

  function Name(v: string): Attr { Attr("name", v) }
  function ItemProp(v: string): Attr { Attr("itemprop", v) }
  function Property(v: string): Attr { Attr("property", v) }

  /** The seven tags a page must have for its social tags to be correct. */
  const MinimumTags: seq<Attr> :=
    [Name("description"), Name("twitter:card"), Property("og:title"), Property("og:type"),
     Property("og:url"), Property("og:image"), Property("og:description")]

  /** The twenty-one tags whose values are reported. */
  const AllTags: seq<Attr> :=
    [Name("description"), ItemProp("name"), ItemProp("description"), ItemProp("image"),
     Name("twitter:card"), Name("twitter:site"), Name("twitter:title"), Name("twitter:description"),
     Name("twitter:creator"), Name("twitter:image:src"), Property("og:title"), Property("og:type"),
     Property("og:url"), Property("og:image"), Property("og:description"), Property("og:site_name"),
     Property("article:published_time"), Property("article:modified_time"),
     Property("article:section"), Property("article:tag"), Property("fb:admins")]

  /** How a tag is named in messages and data keys: `name__description`. */
  function Format(a: Attr): string
  {
    a.key + "__" + a.value
  }

  /** The messages `has_socialmedia_tags` can report. */
  datatype SocialMessage = NotFound(tag: Attr) | AllFound

  function SocialText(m: SocialMessage): string
  {
    match m
    case NotFound(a) => "Recommended social meta tag " + Format(a) + " was not found."
    case AllFound => "All recommended social meta tags were found."
  }

  function SocialTexts(ms: seq<SocialMessage>): (r: seq<string>)
    ensures |r| == |ms| && forall k :: 0 <= k < |ms| ==> r[k] == SocialText(ms[k])
  {
    seq(|ms|, k requires 0 <= k < |ms| => SocialText(ms[k]))
  }

  /** The attribute names the tag lists use contain no underscore. */
  predicate PlainKey(a: Attr)
  {
    '_' !in a.key
  }

  predicate PlainKeys(tags: seq<Attr>)
  {
    forall k :: 0 <= k < |tags| ==> PlainKey(tags[k])
  }

  lemma AllTagsPlain()
    ensures PlainKeys(AllTags)
  {
    assert PlainKey(Name("")) && PlainKey(ItemProp("")) && PlainKey(Property(""));
  }

  lemma KeyEndsAtUnderscore(a: Attr)
    requires PlainKey(a)
    ensures Format(a)[|a.key|] == '_'
    ensures forall i :: 0 <= i < |a.key| ==> Format(a)[i] != '_'
  {
    assert forall i :: 0 <= i < |a.key| ==> Format(a)[i] == a.key[i];
  }

  /** With underscore-free keys, the formatted name determines the tag: the first `_` ends the key. */
  lemma FormatInjective(a: Attr, b: Attr)
    requires PlainKey(a) && PlainKey(b) && Format(a) == Format(b)
    ensures a == b
  {
    var s := Format(a);
    KeyEndsAtUnderscore(a);
    KeyEndsAtUnderscore(b);
    assert |a.key| == |b.key|;
    assert a.key == s[..|a.key|] == b.key;
    assert a.value == s[|a.key| + 2..] == b.value;
  }

  /** Every tag of `tags` is there with a non-empty value. */
  predicate AllPresent(page: Page, tags: seq<Attr>)
  {
    forall k :: 0 <= k < |tags| ==> Present(page.meta(tags[k]))
  }

  /** All seven minimum tags are there with non-empty values. */
  predicate SocialTagsPresent(page: Page)
  {
    AllPresent(page, MinimumTags)
  }

  /** One message per missing tag of `tags`, in list order. */
  function MissingTags(page: Page, tags: seq<Attr>): seq<SocialMessage>
  {
    if tags == [] then []
    else
      var n := |tags| - 1;
      MissingTags(page, tags[..n]) + if Present(page.meta(tags[n])) then [] else [NotFound(tags[n])]
  }

  /** The messages `has_socialmedia_tags` joins into its report. */
  function SocialMessages(page: Page): seq<SocialMessage>
  {
    MissingTags(page, MinimumTags) + if SocialTagsPresent(page) then [AllFound] else []
  }

  /** The reported data: for each listed tag, its formatted name mapped to what the lookup gave. */
  predicate ReportsTags(page: Page, data: map<string, Option<string>>, tags: seq<Attr>)
  {
    forall k :: 0 <= k < |tags| ==> Format(tags[k]) in data && data[Format(tags[k])] == page.meta(tags[k])
  }

  /** The first loop of `has_socialmedia_tags`: a message per missing tag, and whether none is missing. */
  method CheckTags(page: Page, tags: seq<Attr>) returns (correct: bool, messages: seq<SocialMessage>)
    ensures correct <==> AllPresent(page, tags)
    ensures messages == MissingTags(page, tags)
  {
    correct := true;
    messages := [];
    for i := 0 to |tags|
      invariant messages == MissingTags(page, tags[..i])
      invariant correct <==> AllPresent(page, tags[..i])
    {
      assert tags[..i + 1][..i] == tags[..i];
      var content := page.meta(tags[i]);
      if !Present(content) {
        correct := false;
        messages := messages + [NotFound(tags[i])];
      }
    }
    assert tags[..|tags|] == tags;
  }

  /** The second loop of `has_socialmedia_tags`: each tag's looked-up value under its formatted name. */
  method CollectTags(page: Page, tags: seq<Attr>) returns (data: map<string, Option<string>>)
    requires PlainKeys(tags)
    ensures data.Keys == set k | 0 <= k < |tags| :: Format(tags[k])
    ensures ReportsTags(page, data, tags)
  {
    data := map[];
    for i := 0 to |tags|
      invariant data.Keys == set k | 0 <= k < i :: Format(tags[k])
      invariant ReportsTags(page, data, tags[..i])
    {
      var a := tags[i];
      data := data[Format(a) := page.meta(a)];
      forall k | 0 <= k < i && Format(tags[k]) == Format(a)
        ensures page.meta(tags[k]) == page.meta(a)
      {
        FormatInjective(tags[k], a);
      }
      assert forall k :: 0 <= k < i + 1 ==> tags[..i + 1][k] == tags[k];
    }
    assert tags[..|tags|] == tags;
  }

  /**
   * `has_socialmedia_tags`: correct with status success when all seven minimum tags
   * are there, otherwise not correct with status error; one message per missing
   * minimum tag, or the all-found message; and the looked-up value of each of the
   * twenty-one tags under its formatted name, and no other key.
   */
  method HasSocialMediaTags(page: Page)
    returns (correct: bool, status: Status, message: string, data: map<string, Option<string>>)
    ensures correct <==> SocialTagsPresent(page)
    ensures status == (if correct then Success else Error)
    ensures message == Join(SocialTexts(SocialMessages(page)), " ")
    ensures data.Keys == set k | 0 <= k < |AllTags| :: Format(AllTags[k])
    ensures ReportsTags(page, data, AllTags)
  {
    var messages: seq<SocialMessage>;
    correct, messages := CheckTags(page, MinimumTags);
    status := if correct then Success else Error;
    if correct {
      messages := messages + [AllFound];
    }
    assert messages == SocialMessages(page);
    AllTagsPlain();
    data := CollectTags(page, AllTags);
    message := Join(SocialTexts(messages), " ");
  }

  /** The missing-tag messages name exactly the missing tags of the list, in list order. */
  lemma {:induction false} MissingTagsSpec(page: Page, tags: seq<Attr>)
    ensures |MissingTags(page, tags)| <= |tags|
    ensures MissingTags(page, tags) == [] <==> AllPresent(page, tags)
    ensures forall a :: NotFound(a) in MissingTags(page, tags) <==> a in tags && !Present(page.meta(a))
    ensures AllFound !in MissingTags(page, tags)
  {
    if tags != [] {
      var n := |tags| - 1;
      MissingTagsSpec(page, tags[..n]);
      assert tags == tags[..n] + [tags[n]];
      assert forall k :: 0 <= k < n ==> tags[..n][k] == tags[k];
    }
  }

  /**
   * What the social report says: the all-found message alone when every minimum tag
   * is there; otherwise a not-found message for exactly the missing minimum tags,
   * between one and seven of them, and no all-found message.
   */
  lemma SocialMessagesShape(page: Page)
    ensures SocialTagsPresent(page) ==> SocialMessages(page) == [AllFound]
    ensures !SocialTagsPresent(page) ==> 1 <= |SocialMessages(page)| <= 7 && AllFound !in SocialMessages(page)
    ensures forall a :: NotFound(a) in SocialMessages(page) <==> a in MinimumTags && !Present(page.meta(a))
  {
    MissingTagsSpec(page, MinimumTags);
  }
}
