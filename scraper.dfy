/** The article stage: resolving a Google News redirect link to the publisher's
    URL, and extracting a title and a bounded body text from the article page.
    The HTTP fetches and the HTML parser are outside the model: each fetch is an
    oracle from URL to reply, and a parsed page is given as the values the code
    reads from it (the hrefs of its links, its first `h1` and `title`, and the
    text of its paragraphs, after the unwanted tags were removed). */
module Scraper {
  import opened Common

  /** Markers of a Google redirect link. */
  const GoogleNewsHost := "news.google.com"
  const GoogleRedirectPath := "google.com/url"
  /** Links on the redirect page that mention this are Google's own. */
  const GoogleDomain := "google.com"

  const DefaultTitle := "News Article"
  /** A paragraph needs strictly more words than this to be kept. */
  const MinWordsExclusive := 6
  /** Paragraphs whose lower-cased text mentions this are footer text. */
  const FooterMarker := "copyright"
  /** A joined text shorter than this means the page was not an article. */
  const MinTextLength := 200
  /** The body text is cut to at most this many characters. */
  const MaxTextLength := 3500

  // ---------------------------------------------------------------------
  // Redirect resolution

  predicate IsGoogleRedirect(url: string) {
    Contains(url, GoogleNewsHost) || Contains(url, GoogleRedirectPath)
  }

  /** A link that leads off Google: an http(s) URL that does not mention google.com. */
  predicate IsExternalLink(href: string) {
    StartsWith(href, "http") && !Contains(href, GoogleDomain)
  }

  /** Link `i` is the first external link of the page. */
  predicate IsFirstExternal(hrefs: seq<string>, i: nat) {
    i < |hrefs| && IsExternalLink(hrefs[i]) && forall j :: 0 <= j < i ==> !IsExternalLink(hrefs[j])
  }

  /** The position of the first external link, in document order. */
  function FirstExternalLink(hrefs: seq<string>): (r: Option<nat>)
    ensures r.Some? ==> IsFirstExternal(hrefs, r.value)
    ensures r.None? <==> forall j :: 0 <= j < |hrefs| ==> !IsExternalLink(hrefs[j])
  {
    if hrefs == [] then None
    else if IsExternalLink(hrefs[0]) then Some(0)
    else
      match FirstExternalLink(hrefs[1..])
      case None => None
      case Some(k) => Some(k + 1)
  }

  /** What fetching the redirect page gives: the hrefs of its `<a href>` tags
      and the URL the request ended at after following redirects, or an
      exception from the request or the parser. */
  datatype RedirectReply = RedirectPage(hrefs: seq<string>, finalUrl: string) | RedirectRaised

  /** `resolve_google_url`: a URL without a Google redirect marker is returned
      as is and nothing is fetched; otherwise the first external link of the
      redirect page, else the URL the request ended at, and the original URL
      when the fetch raised. */
  function ResolveGoogleUrl(url: string, fetch: string -> RedirectReply): (r: string)
    ensures !IsGoogleRedirect(url) ==> r == url
    ensures IsGoogleRedirect(url) && fetch(url).RedirectRaised? ==> r == url
    ensures IsGoogleRedirect(url) && fetch(url).RedirectPage? ==>
      var hrefs := fetch(url).hrefs;
      (forall i: nat :: IsFirstExternal(hrefs, i) ==> r == hrefs[i]) &&
      ((forall i :: 0 <= i < |hrefs| ==> !IsExternalLink(hrefs[i])) ==> r == fetch(url).finalUrl)
  {
    if !IsGoogleRedirect(url) then url
    else
      match fetch(url)
      case RedirectRaised => url
      case RedirectPage(hrefs, finalUrl) =>
        match FirstExternalLink(hrefs)
        case Some(i) => hrefs[i]
        case None => finalUrl
  }

  /** A link picked from a redirect page is final: resolving it again returns it
      unchanged without a fetch, because it does not mention google.com at all. */
  lemma {:induction false} ExternalLinkIsResolved(href: string, fetch: string -> RedirectReply)
    requires IsExternalLink(href)
    ensures !IsGoogleRedirect(href)
    ensures ResolveGoogleUrl(href, fetch) == href
  {
    assert GoogleNewsHost == "news." + GoogleDomain;
    assert GoogleRedirectPath == GoogleDomain + "/url";
    if Contains(href, GoogleNewsHost) {
      ContainsPart(href, "news.", GoogleDomain);
    }
    if Contains(href, GoogleRedirectPath) {
      assert GoogleDomain == (GoogleDomain + "/url")[..|GoogleDomain|];
      ContainsPrefixOfSub(href, GoogleDomain + "/url", |GoogleDomain|);
    }
  }

  /** Whatever contains `pre + mid` contains `mid`. */
  lemma {:induction false} ContainsPart(s: string, pre: string, mid: string)
    requires Contains(s, pre + mid)
    ensures Contains(s, mid)
    decreases |s|
  {
    if StartsWith(s, pre + mid) {
      assert s[|pre|..][..|mid|] == s[..|pre + mid|][|pre|..] == (pre + mid)[|pre|..] == mid;
      ContainsSuffixLifts(s, |pre|, mid);
    } else {
      ContainsPart(s[1..], pre, mid);
      ContainsSuffixLifts(s, 1, mid);
    }
  }

  /** Whatever contains `sub` contains every prefix of `sub`. */
  lemma {:induction false} ContainsPrefixOfSub(s: string, sub: string, k: nat)
    requires k <= |sub| && Contains(s, sub)
    ensures Contains(s, sub[..k])
    decreases |s|
  {
    if StartsWith(s, sub) {
      assert s[..k] == sub[..k];
    } else {
      ContainsPrefixOfSub(s[1..], sub, k);
    }
  }

  /** A match inside a suffix is a match in the whole string. */
  lemma {:induction false} ContainsSuffixLifts(s: string, k: nat, sub: string)
    requires k <= |s|
    requires StartsWith(s[k..], sub) || Contains(s[k..], sub)
    ensures Contains(s, sub)
    decreases k
  {
    if k == 0 {
      assert s[0..] == s;
      if StartsWith(s, sub) {
      } else {
        assert Contains(s, sub);
      }
    } else {
      assert s[1..][k - 1..] == s[k..];
      ContainsSuffixLifts(s[1..], k - 1, sub);
    }
  }

  // ---------------------------------------------------------------------
  // Text helpers: Python's str.strip(), str.split() and str.lower()

  /** Python's `str.isspace()` for one character: the characters that
      `str.split()` with no argument and `str.strip()` treat as whitespace. */
  predicate IsSpace(c: char) {
    ('\t' <= c <= '\r') || ('\U{1c}' <= c <= '\U{1f}') || c == ' ' ||
    c == '\U{85}' || c == '\U{a0}' || c == '\U{1680}' || ('\U{2000}' <= c <= '\U{200a}') ||
    c == '\U{2028}' || c == '\U{2029}' || c == '\U{202f}' || c == '\U{205f}' || c == '\U{3000}'
  }

  function TrimStart(s: string): (r: string)
    ensures |r| <= |s|
    ensures r != [] ==> !IsSpace(r[0])
  {
    if s != [] && IsSpace(s[0]) then TrimStart(s[1..]) else s
  }

  function TrimEnd(s: string): (r: string)
    ensures |r| <= |s|
    ensures r != [] ==> !IsSpace(r[|r| - 1])
  {
    if s != [] && IsSpace(s[|s| - 1]) then TrimEnd(s[..|s| - 1]) else s
  }

  /** Python's `str.strip()`: the longest part that neither starts nor ends with whitespace. */
  function Strip(s: string): (r: string)
    ensures |r| <= |s|
    ensures r != [] ==> !IsSpace(r[0]) && !IsSpace(r[|r| - 1])
  {
    var t := TrimStart(s);
    TrimEndDropsSpaces(t);
    TrimEnd(t)
  }

  /** The stripped text is one contiguous piece of the original, and only
      whitespace was removed around it. */
  lemma StripIsPiece(s: string) returns (k: nat)
    ensures k + |Strip(s)| <= |s| && Strip(s) == s[k..k + |Strip(s)|]
    ensures forall i :: 0 <= i < k ==> IsSpace(s[i])
    ensures forall i :: k + |Strip(s)| <= i < |s| ==> IsSpace(s[i])
  {
    var t := TrimStart(s);
    var r := TrimEnd(t);
    k := |s| - |t|;
    TrimStartDropsSpaces(s);
    TrimEndDropsSpaces(t);
    assert r == s[k..k + |r|];
    forall i | k + |r| <= i < |s| ensures IsSpace(s[i]) {
      assert s[i] == t[i - k];
    }
  }

  /** TrimStart removes a run of leading whitespace and keeps the rest. */
  lemma {:induction false} TrimStartDropsSpaces(s: string)
    ensures TrimStart(s) == s[|s| - |TrimStart(s)|..]
    ensures forall i :: 0 <= i < |s| - |TrimStart(s)| ==> IsSpace(s[i])
    decreases |s|
  {
    if s != [] && IsSpace(s[0]) {
      TrimStartDropsSpaces(s[1..]);
      assert s[1..][|s| - 1 - |TrimStart(s)|..] == s[|s| - |TrimStart(s)|..];
      forall i | 1 <= i < |s| - |TrimStart(s)| ensures IsSpace(s[i]) {
        assert s[i] == s[1..][i - 1];
      }
    }
  }

  /** TrimEnd removes a run of trailing whitespace and keeps the rest. */
  lemma {:induction false} TrimEndDropsSpaces(s: string)
    ensures TrimEnd(s) == s[..|TrimEnd(s)|]
    ensures forall i :: |TrimEnd(s)| <= i < |s| ==> IsSpace(s[i])
    decreases |s|
  {
    if s != [] && IsSpace(s[|s| - 1]) {
      TrimEndDropsSpaces(s[..|s| - 1]);
      assert s[..|s| - 1][..|TrimEnd(s)|] == s[..|TrimEnd(s)|];
      forall i | |TrimEnd(s)| <= i < |s| - 1 ensures IsSpace(s[i]) {
        assert s[i] == s[..|s| - 1][i];
      }
    }
  }

  /** A text that neither starts nor ends with whitespace is its own strip. */
  lemma {:induction false} StripUnchanged(s: string)
    requires s != [] && !IsSpace(s[0]) && !IsSpace(s[|s| - 1])
    ensures Strip(s) == s
  {
  }

  /** The number of whitespace-separated words in `s`, given whether the
      character before `s` was whitespace (or `s` starts the text). */
  function WordsAfter(s: string, afterSpace: bool): nat {
    if s == [] then 0
    else (if afterSpace && !IsSpace(s[0]) then 1 else 0) + WordsAfter(s[1..], IsSpace(s[0]))
  }

  /** `len(s.split())`. */
  function WordCount(s: string): nat {
    WordsAfter(s, true)
  }

  /** Only whitespace, or nothing, has no words. */
  lemma {:induction false} NoWordsIffBlank(s: string)
    ensures WordCount(s) == 0 <==> forall i :: 0 <= i < |s| ==> IsSpace(s[i])
    decreases |s|
  {
    if s != [] {
      if IsSpace(s[0]) {
        NoWordsIffBlank(s[1..]);
        if WordCount(s) == 0 {
          forall i | 0 <= i < |s| ensures IsSpace(s[i]) {
            if i > 0 { assert s[i] == s[1..][i - 1]; }
          }
        }
      } else {
        assert WordCount(s) >= 1;
      }
    }
  }

  lemma {:induction false} LeadingSpaceAddsNoWord(s: string, b: bool)
    requires s != [] && IsSpace(s[0])
    ensures WordsAfter(s, b) == WordsAfter(s[1..], true)
  {
  }

  lemma {:induction false} TrailingSpaceAddsNoWord(s: string, b: bool)
    requires s != [] && IsSpace(s[|s| - 1])
    ensures WordsAfter(s, b) == WordsAfter(s[..|s| - 1], b)
    decreases |s|
  {
    if |s| > 1 {
      assert s[1..][..|s| - 2] == s[..|s| - 1][1..];
      TrailingSpaceAddsNoWord(s[1..], IsSpace(s[0]));
    }
  }

  lemma {:induction false} TrimStartKeepsWords(s: string)
    ensures WordCount(TrimStart(s)) == WordCount(s)
    decreases |s|
  {
    if s != [] && IsSpace(s[0]) {
      LeadingSpaceAddsNoWord(s, true);
      TrimStartKeepsWords(s[1..]);
    }
  }

  lemma {:induction false} TrimEndKeepsWords(s: string)
    ensures WordCount(TrimEnd(s)) == WordCount(s)
    decreases |s|
  {
    if s != [] && IsSpace(s[|s| - 1]) {
      TrailingSpaceAddsNoWord(s, true);
      TrimEndKeepsWords(s[..|s| - 1]);
    }
  }

  /** Stripping a paragraph does not change its word count, so the filter
      decides the same on the raw and on the stored, stripped text. */
  lemma StripKeepsWordCount(s: string)
    ensures WordCount(Strip(s)) == WordCount(s)
  {
    TrimStartKeepsWords(s);
    TrimEndKeepsWords(TrimStart(s));
  }

  lemma {:induction false} TrimStartIdempotent(s: string)
    requires s == [] || !IsSpace(s[0])
    ensures TrimStart(s) == s
  {
  }

  /** Stripping twice is stripping once. */
  lemma StripIdempotent(s: string)
    ensures Strip(Strip(s)) == Strip(s)
  {
    var r := Strip(s);
    TrimStartIdempotent(r);
    if r != [] {
      assert !IsSpace(r[|r| - 1]);
    }
  }

  /** ASCII case folding of one character. */
  function LowerChar(c: char): (d: char)
    ensures 'A' <= c <= 'Z' ==> d as int == c as int + 32
    ensures !('A' <= c <= 'Z') ==> d == c
  {
    if 'A' <= c <= 'Z' then (c as int + 32) as char else c
  }

  /** `str.lower()` restricted to ASCII letters. This decides `"copyright" in
      text.lower()` exactly: the only non-ASCII characters that Python lowers
      into ASCII are U+0130 (to "i" and a combining dot) and U+212A (to "k"),
      and neither can complete the marker. */
  function Lower(s: string): (r: string)
    ensures |r| == |s|
    ensures forall i :: 0 <= i < |s| ==> r[i] == LowerChar(s[i])
  {
    seq(|s|, i requires 0 <= i < |s| => LowerChar(s[i]))
  }

  /** Lowering keeps occurrences: wherever `w` occurs in `s`, its lowered
      form occurs in the lowered text. */
  lemma {:induction false} LowerKeepsContains(s: string, w: string)
    requires Contains(s, w)
    ensures Contains(Lower(s), Lower(w))
    decreases |s|
  {
    if StartsWith(s, w) {
      assert Lower(s)[..|w|] == Lower(w);
    } else {
      LowerKeepsContains(s[1..], w);
      assert Lower(s)[1..] == Lower(s[1..]);
    }
  }

  // ---------------------------------------------------------------------
  // Paragraph filter and join

  /** A stripped paragraph is article text: more than six words, and no
      mention of "copyright" in any letter case. */
  predicate KeepParagraph(text: string) {
    WordCount(text) > MinWordsExclusive && !Contains(Lower(text), FooterMarker)
  }

  /** The footer test ignores letter case: a paragraph holding the marker in
      any spelling ("Copyright", "COPYRIGHT", ...) is dropped, however long. */
  lemma MarkerAnyCase(text: string, w: string)
    requires Lower(w) == FooterMarker && Contains(text, w)
    ensures !KeepParagraph(text)
  {
    LowerKeepsContains(text, w);
  }

  /** The stripped texts of the kept paragraphs, in document order. */
  function CleanParagraphs(raws: seq<string>): (r: seq<string>)
    ensures |r| <= |raws|
    ensures forall t :: t in r ==> KeepParagraph(t) && Strip(t) == t
  {
    if raws == [] then []
    else
      var t := Strip(raws[|raws| - 1]);
      StripIdempotent(raws[|raws| - 1]);
      CleanParagraphs(raws[..|raws| - 1]) + (if KeepParagraph(t) then [t] else [])
  }

  /** Some paragraph strips to `t`. */
  predicate StrippedAmong(raws: seq<string>, t: string) {
    exists i :: 0 <= i < |raws| && Strip(raws[i]) == t
  }

  /** A paragraph's stripped text is kept exactly when the filter accepts it. */
  lemma {:induction false} CleanParagraphsMembers(raws: seq<string>, t: string)
    ensures t in CleanParagraphs(raws) <==> KeepParagraph(t) && StrippedAmong(raws, t)
    decreases |raws|
  {
    if raws != [] {
      var init, last := raws[..|raws| - 1], Strip(raws[|raws| - 1]);
      CleanParagraphsMembers(init, t);
      StrippedAmongSnoc(raws, t);
      if KeepParagraph(last) {
        assert CleanParagraphs(raws) == CleanParagraphs(init) + [last];
      } else {
        assert CleanParagraphs(raws) == CleanParagraphs(init);
      }
    }
  }

  lemma StrippedAmongSnoc(raws: seq<string>, t: string)
    requires raws != []
    ensures StrippedAmong(raws, t) <==> StrippedAmong(raws[..|raws| - 1], t) || Strip(raws[|raws| - 1]) == t
  {
    var init := raws[..|raws| - 1];
    if StrippedAmong(raws, t) {
      var i :| 0 <= i < |raws| && Strip(raws[i]) == t;
      if i < |init| {
        assert Strip(init[i]) == t;
      }
    }
    if StrippedAmong(init, t) {
      var i :| 0 <= i < |init| && Strip(init[i]) == t;
      assert Strip(raws[i]) == t;
    }
  }

  /** Filtering keeps document order: the kept paragraphs of two consecutive
      stretches of the page are those of the first followed by those of the second. */
  lemma {:induction false} CleanParagraphsAppend(a: seq<string>, b: seq<string>)
    ensures CleanParagraphs(a + b) == CleanParagraphs(a) + CleanParagraphs(b)
    decreases |b|
  {
    if b == [] {
      assert a + b == a;
    } else {
      var b' := b[..|b| - 1];
      assert (a + b)[..|a + b| - 1] == a + b';
      assert (a + b)[|a + b| - 1] == b[|b| - 1];
      CleanParagraphsAppend(a, b');
    }
  }

  /** `" ".join(parts)`. */
  function Join(parts: seq<string>): (r: string)
    ensures parts != [] ==> StartsWith(r, parts[0])
  {
    if parts == [] then []
    else if |parts| == 1 then parts[0]
    else parts[0] + " " + Join(parts[1..])
  }

  /** Joining two non-empty lists is joining each and putting one space between. */
  lemma {:induction false} JoinAppend(a: seq<string>, b: seq<string>)
    requires a != [] && b != []
    ensures Join(a + b) == Join(a) + " " + Join(b)
    decreases |a|
  {
    if |a| == 1 {
      assert (a + b)[1..] == b;
    } else {
      assert (a + b)[1..] == a[1..] + b;
      JoinAppend(a[1..], b);
    }
  }

  /** The joined text is as long as its parts plus one separator between each two. */
  lemma {:induction false} JoinLength(parts: seq<string>)
    requires parts != []
    ensures |Join(parts)| == TotalLength(parts) + |parts| - 1
    decreases |parts|
  {
    if |parts| > 1 {
      JoinLength(parts[1..]);
    }
  }

  function TotalLength(parts: seq<string>): nat {
    if parts == [] then 0 else |parts[0]| + TotalLength(parts[1..])
  }

  // ---------------------------------------------------------------------
  // Title and the whole article

  /** The parsed article page after script, style, navigation, footer, header,
      aside, form, iframe and svg elements were removed: the text of its first
      `h1` and of its `title`, when present, and the text of each `p`. */
  datatype Document = Document(h1: Option<string>, title: Option<string>, paragraphs: seq<string>)

  /** The article title: the stripped text of the first `h1` when there is one,
      else that of the `title` element, and the default when the chosen text is
      empty after stripping. An `h1` that is present but blank does not fall
      back to `title`. */
  function ArticleTitle(doc: Document): (t: string)
    ensures t != []
    ensures Strip(t) == t
    ensures doc.h1.Some? && Strip(doc.h1.value) != [] ==> t == Strip(doc.h1.value)
    ensures doc.h1.None? && doc.title.Some? && Strip(doc.title.value) != [] ==> t == Strip(doc.title.value)
    ensures t != DefaultTitle ==>
      (doc.h1.Some? && t == Strip(doc.h1.value)) || (doc.h1.None? && doc.title.Some? && t == Strip(doc.title.value))
  {
    var chosen :=
      if doc.h1.Some? then Strip(doc.h1.value)
      else if doc.title.Some? then Strip(doc.title.value)
      else [];
    assert Strip(chosen) == chosen by {
      if doc.h1.Some? {
        StripIdempotent(doc.h1.value);
      } else if doc.title.Some? {
        StripIdempotent(doc.title.value);
      }
    }
    DefaultTitleStripped();
    if chosen == [] then DefaultTitle else chosen
  }

  lemma DefaultTitleStripped()
    ensures Strip(DefaultTitle) == DefaultTitle
  {
    StripUnchanged(DefaultTitle);
  }

  /** What fetching the article gives: the HTTP status and the parsed page, or
      an exception from the request or the parser. */
  datatype PageReply = PageResponse(status: int, doc: Document) | PageRaised

  /** `raise_for_status` raises on a client or server error status. */
  predicate RaisesForStatus(status: int) {
    400 <= status < 600
  }

  predicate PageUsable(reply: PageReply) {
    reply.PageResponse? && !RaisesForStatus(reply.status)
  }

  datatype Article = Article(title: string, text: string)

  function Min(a: int, b: int): int {
    if a <= b then a else b
  }

  /** The article made from a usable page: None when the kept paragraphs
      joined with single spaces are under 200 characters long; otherwise the
      title and the first 3500 characters of that text, so the text is between
      200 and 3500 characters long and begins the joined text. */
  function ExtractArticle(doc: Document): (r: Option<Article>)
    ensures r.None? <==> |Join(CleanParagraphs(doc.paragraphs))| < MinTextLength
    ensures r.Some? ==>
      var full := Join(CleanParagraphs(doc.paragraphs));
      r.value.title == ArticleTitle(doc) &&
      MinTextLength <= |r.value.text| <= MaxTextLength &&
      StartsWith(full, r.value.text) &&
      |r.value.text| == Min(|full|, MaxTextLength)
  {
    var full := Join(CleanParagraphs(doc.paragraphs));
    if |full| < MinTextLength then None
    else Some(Article(ArticleTitle(doc), full[..Min(|full|, MaxTextLength)]))
  }

  /** The paragraph loop of `scrape_article`: strip each paragraph's text and
      append it when the filter keeps it. */
  method CollectParagraphs(paragraphs: seq<string>) returns (clean: seq<string>)
    ensures clean == CleanParagraphs(paragraphs)
  {
    clean := [];
    var i := 0;
    while i < |paragraphs|
      invariant 0 <= i <= |paragraphs|
      invariant clean == CleanParagraphs(paragraphs[..i])
    {
      CleanParagraphsSnoc(paragraphs, i);
      var text := Strip(paragraphs[i]);
      if KeepParagraph(text) {
        clean := clean + [text];
      }
      i := i + 1;
    }
    assert paragraphs[..i] == paragraphs;
  }

  /** One more paragraph adds its stripped text when the filter keeps it. */
  lemma CleanParagraphsSnoc(paragraphs: seq<string>, i: nat)
    requires i < |paragraphs|
    ensures var text := Strip(paragraphs[i]);
      CleanParagraphs(paragraphs[..i + 1])
      == CleanParagraphs(paragraphs[..i]) + (if KeepParagraph(text) then [text] else [])
  {
    assert paragraphs[..i + 1][..i] == paragraphs[..i];
  }

  /** `scrape_article`: resolve the URL, fetch the page (an exception or an
      error status gives None), keep the article paragraphs in order, and
      build the article from them. */
  method ScrapeArticle(url: string, redirects: string -> RedirectReply, pages: string -> PageReply)
    returns (article: Option<Article>, target: string)
    ensures target == ResolveGoogleUrl(url, redirects)
    ensures article == if PageUsable(pages(target)) then ExtractArticle(pages(target).doc) else None
  {
    target := ResolveGoogleUrl(url, redirects);
    var reply := pages(target);
    if !PageUsable(reply) {
      return None, target;
    }
    var doc := reply.doc;
    var title := ArticleTitle(doc);
    var clean := CollectParagraphs(doc.paragraphs);
    var fullText := Join(clean);
    if |fullText| < MinTextLength {
      return None, target;
    }
    var cut := Min(|fullText|, MaxTextLength);
    article := Some(Article(title, fullText[..cut]));
  }
}
