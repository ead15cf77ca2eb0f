/**
 * The pure helpers of the link-chain finder: the content window of a
 * downloaded page, the article-link filter, the page-name extraction and
 * the link extraction over the `href` values of a page's anchor elements.
 */
module LinkFilter {
  import opened Wrappers
  import opened Sequences
  import opened Strings

  const ContentStartTag := "<div id=\"mw-content-text\""
  const FooterTag := "<div class=\"printfooter\""
  const ArticlePrefix := "/wiki/"

  // ---------------------------------------------------------------------
  // Content window
  // ---------------------------------------------------------------------

  /**
   * Offsets of the article body marker and of the footer marker. Both
   * default to 0 when the page is missing or either marker is absent.
   * Nothing makes the first offset smaller than the second.
   */
  function ExtractContent(page: Option<string>): (w: (nat, nat))
    ensures page.None? ==> w == (0, 0)
    ensures page.Some? && !(Contains(page.value, ContentStartTag) && Contains(page.value, FooterTag)) ==> w == (0, 0)
    ensures page.Some? && Contains(page.value, ContentStartTag) && Contains(page.value, FooterTag) ==>
              IsFirstOccurrence(page.value, ContentStartTag, w.0) && IsFirstOccurrence(page.value, FooterTag, w.1)
    ensures page.Some? ==> w.0 <= |page.value| && w.1 <= |page.value|
  {
    if page.None? then (0, 0)
    else
      var start := Find(page.value, ContentStartTag);
      var end := Find(page.value, FooterTag);
      if start != -1 && end != -1 then (start, end) else (0, 0)
  }

  // ---------------------------------------------------------------------
  // Article-link filter: ':' not in link and re.match(r'^/wiki/[^#]+$', link)
  // ---------------------------------------------------------------------

  /** `$` of Python's `re`: the end of the text, or just before a final newline. */
  predicate AtEnd(s: string) {
    s == [] || s == ['\n']
  }

  /** `[^#]*$` matched against `s`, backtracking over the greedy repetition. */
  predicate MatchesNoHashTail(s: string)
    decreases |s|
  {
    AtEnd(s) || (s != [] && s[0] != '#' && MatchesNoHashTail(s[1..]))
  }

  /** `^/wiki/[^#]+$` matched against `link`. */
  predicate MatchesArticlePattern(link: string) {
    |link| > |ArticlePrefix| && link[..|ArticlePrefix|] == ArticlePrefix
    && link[|ArticlePrefix|] != '#' && MatchesNoHashTail(link[|ArticlePrefix| + 1..])
  }

  predicate IsWikipediaArticle(link: string) {
    ':' !in link && MatchesArticlePattern(link)
  }

  lemma {:induction false} NoHashTailExactly(s: string)
    ensures MatchesNoHashTail(s) <==> '#' !in s
    decreases |s|
  {
    if s != [] {
      NoHashTailExactly(s[1..]);
      assert s == [s[0]] + s[1..];
    }
  }

  /**
   * The filter accepts exactly the links without ':' that start with
   * "/wiki/" followed by at least one character, none of them '#'.
   * Further '/' segments are accepted.
   */
  lemma IsWikipediaArticleExactly(link: string)
    ensures IsWikipediaArticle(link) <==>
              ':' !in link && |link| > |ArticlePrefix| && link[..|ArticlePrefix|] == ArticlePrefix
              && '#' !in link[|ArticlePrefix|..]
  {
    if |link| > |ArticlePrefix| {
      var rest := link[|ArticlePrefix|..];
      NoHashTailExactly(link[|ArticlePrefix| + 1..]);
      assert rest == [link[|ArticlePrefix|]] + link[|ArticlePrefix| + 1..];
    }
  }

  // ---------------------------------------------------------------------
  // Page name
  // ---------------------------------------------------------------------

  /**
   * The title as the source computes it before percent-decoding: every
   * "/wiki/" removed, then cut at the offset of '#' found in the ORIGINAL
   * link rather than in the shortened text.
   */
  function PageTitleAsWritten(link: string): (t: string)
    ensures t <= RemoveAll(link, ArticlePrefix)
  {
    var result := RemoveAll(link, ArticlePrefix);
    var anchor := Find(link, "#");
    if anchor == -1 then result
    else result[..if anchor <= |result| then anchor else |result|]
  }

  /** The title with the anchor cut where '#' stands in the shortened text. */
  function PageTitle(link: string): (t: string)
    ensures t <= RemoveAll(link, ArticlePrefix)
    ensures '#' !in t
    ensures |t| < |RemoveAll(link, ArticlePrefix)| ==> RemoveAll(link, ArticlePrefix)[|t|] == '#'
  {
    var result := RemoveAll(link, ArticlePrefix);
    var anchor := Find(result, "#");
    CharOccurrences(result, '#');
    if anchor == -1 then result else result[..anchor]
  }

  /** Removing every "/wiki/" from "/wiki/" followed by a text without '/' leaves that text. */
  lemma StripArticlePrefix(rest: string)
    requires '/' !in rest
    ensures RemoveAll(ArticlePrefix + rest, ArticlePrefix) == rest
  {
    var link := ArticlePrefix + rest;
    assert link[..|ArticlePrefix|] == ArticlePrefix;
    assert link[|ArticlePrefix|..] == rest;
    RemoveAllAbsent(rest, ArticlePrefix);
  }

  /**
   * For a link "/wiki/<title>#<section>" the source's cut falls
   * |"/wiki/"| characters too far: it keeps the '#' and up to five
   * characters of the section ("/wiki/Foo#Section" gives "Foo#Secti").
   */
  lemma AnchorOffsetMisplaced(title: string, section: string)
    requires '#' !in title && '/' !in title && '/' !in section
    ensures PageTitleAsWritten(ArticlePrefix + title + "#" + section)
            == title + "#" + section[..if |section| < |ArticlePrefix| - 1 then |section| else |ArticlePrefix| - 1]
    ensures '#' in PageTitleAsWritten(ArticlePrefix + title + "#" + section)
  {
    var rest := title + "#" + section;
    var link := ArticlePrefix + rest;
    var k := if |section| < |ArticlePrefix| - 1 then |section| else |ArticlePrefix| - 1;
    StripArticlePrefix(rest);
    assert link == (ArticlePrefix + title) + "#" + section;
    FindAfter(ArticlePrefix + title, '#', section);
    assert rest[..|title| + 1 + k] == title + "#" + section[..k];
    assert (title + "#" + section[..k])[|title|] == '#';
  }

  /** For the same links the corrected cut leaves exactly the title. */
  lemma AnchorCutInTitle(title: string, section: string)
    requires '#' !in title && '/' !in title && '/' !in section
    ensures PageTitle(ArticlePrefix + title + "#" + section) == title
  {
    var rest := title + "#" + section;
    StripArticlePrefix(rest);
    assert ArticlePrefix + rest == ArticlePrefix + title + "#" + section;
    FindAfter(title, '#', section);
    assert rest[..|title|] == title;
  }

  /**
   * For every link the filter accepts there is no '#', so both versions of
   * the anchor cut leave the title untouched: the misplaced offset cannot
   * be observed through link extraction.
   */
  lemma {:induction false} AcceptedLinkHasNoAnchor(link: string)
    requires IsWikipediaArticle(link)
    ensures PageTitleAsWritten(link) == PageTitle(link) == RemoveAll(link, ArticlePrefix)
  {
    IsWikipediaArticleExactly(link);
    assert link == link[..|ArticlePrefix|] + link[|ArticlePrefix|..];
    assert '#' !in link;
    TitleWithoutAnchor(link);
  }

  /** A link without '#' has nothing to cut: both cuts leave the text with every "/wiki/" removed. */
  lemma TitleWithoutAnchor(link: string)
    requires '#' !in link
    ensures PageTitleAsWritten(link) == PageTitle(link) == RemoveAll(link, ArticlePrefix)
  {
    var result := RemoveAll(link, ArticlePrefix);
    RemoveAllChars(link, ArticlePrefix, '#');
    forall i ensures !OccursAt(link, "#", i) {
      OccursAtChar(link, '#', i);
    }
    forall i ensures !OccursAt(result, "#", i) {
      OccursAtChar(result, '#', i);
    }
  }

  /**
   * `extract_page_name`, with the source's cut: the decoded title, or None
   * when the title is empty, which happens exactly when nothing is left
   * once "/wiki/" is removed or the link starts with '#'. `unquote` stands
   * for the percent-decoding library call.
   */
  function ExtractPageName(link: string, unquote: string -> string): (name: Option<string>)
    ensures name.None? <==> RemoveAll(link, ArticlePrefix) == [] || Find(link, "#") == 0
    ensures name.Some? ==> name.value == unquote(PageTitleAsWritten(link))
  {
    var title := PageTitleAsWritten(link);
    if title != [] then Some(unquote(title)) else None
  }

  /** On a link without '#', the name is the decoded text with every "/wiki/" removed, if any is left. */
  lemma PageNameWithoutAnchor(link: string, unquote: string -> string)
    requires '#' !in link
    ensures ExtractPageName(link, unquote)
            == if RemoveAll(link, ArticlePrefix) == [] then None else Some(unquote(RemoveAll(link, ArticlePrefix)))
  {
    TitleWithoutAnchor(link);
  }

  /** On "/wiki/<title>#<section>" the name keeps the '#' and up to five characters of the section. */
  lemma PageNameKeepsAnchor(title: string, section: string, unquote: string -> string)
    requires '#' !in title && '/' !in title && '/' !in section
    ensures ExtractPageName(ArticlePrefix + title + "#" + section, unquote)
            == Some(unquote(title + "#" + section[..if |section| < |ArticlePrefix| - 1 then |section| else |ArticlePrefix| - 1]))
  {
    AnchorOffsetMisplaced(title, section);
  }

  /** An accepted link may still lose its whole title: "/wiki//wiki/" yields no name. */
  lemma EmptyTitleAccepted(unquote: string -> string)
    ensures IsWikipediaArticle("/wiki//wiki/")
    ensures ExtractPageName("/wiki//wiki/", unquote) == None
  {
    var link := "/wiki//wiki/";
    IsWikipediaArticleExactly(link);
    assert link[..|ArticlePrefix|] == ArticlePrefix;
    assert link[|ArticlePrefix|..] == ArticlePrefix;
    assert link[|ArticlePrefix|..][|ArticlePrefix|..] == [];
    assert RemoveAll(link[|ArticlePrefix|..], ArticlePrefix) == [];
    assert RemoveAll(link, ArticlePrefix) == [];
  }

  // ---------------------------------------------------------------------
  // Link extraction
  // ---------------------------------------------------------------------

  /**
   * The name one anchor element contributes: its `href` must be present
   * and non-empty, pass the filter, and give a non-empty page name.
   */
  function KeptName(href: Option<string>, unquote: string -> string): (name: Option<string>)
    ensures name.Some? ==> href.Some? && IsWikipediaArticle(href.value) && name.value != []
  {
    if href.Some? && href.value != [] && IsWikipediaArticle(href.value) then
      var name := ExtractPageName(href.value, unquote);
      if name.Some? && name.value != [] then name else None
    else None
  }

  /** The set of names the anchors with `hrefs` (document order) contribute. */
  function LinkSet(hrefs: seq<Option<string>>, unquote: string -> string): set<string>
  {
    if hrefs == [] then {}
    else
      var last := KeptName(hrefs[|hrefs| - 1], unquote);
      LinkSet(hrefs[..|hrefs| - 1], unquote) + (if last.Some? then {last.value} else {})
  }

  /** A name is extracted exactly when some anchor keeps it. */
  lemma {:induction false} LinkSetMembers(hrefs: seq<Option<string>>, unquote: string -> string, n: string)
    ensures n in LinkSet(hrefs, unquote) <==> exists i :: 0 <= i < |hrefs| && KeptName(hrefs[i], unquote) == Some(n)
    decreases |hrefs|
  {
    if hrefs != [] {
      var init := hrefs[..|hrefs| - 1];
      var last := |hrefs| - 1;
      LinkSetMembers(init, unquote, n);
      assert n in LinkSet(hrefs, unquote) <==> n in LinkSet(init, unquote) || KeptName(hrefs[last], unquote) == Some(n);
      forall i | 0 <= i < |init| ensures init[i] == hrefs[i] {
      }
    }
  }

  /**
   * Every extracted name is non-empty, is the decoded title of an href
   * that starts with "/wiki/" and has neither ':' nor '#' in it.
   */
  lemma ExtractedNamesAreArticles(hrefs: seq<Option<string>>, unquote: string -> string, n: string)
    requires n in LinkSet(hrefs, unquote)
    ensures n != []
    ensures exists i :: 0 <= i < |hrefs| && hrefs[i].Some? && ':' !in hrefs[i].value && '#' !in hrefs[i].value
                        && |hrefs[i].value| > |ArticlePrefix| && hrefs[i].value[..|ArticlePrefix|] == ArticlePrefix
                        && n == unquote(RemoveAll(hrefs[i].value, ArticlePrefix))
  {
    LinkSetMembers(hrefs, unquote, n);
    var i :| 0 <= i < |hrefs| && KeptName(hrefs[i], unquote) == Some(n);
    var link := hrefs[i].value;
    IsWikipediaArticleExactly(link);
    assert link == link[..|ArticlePrefix|] + link[|ArticlePrefix|..];
    AcceptedLinkHasNoAnchor(link);
  }

  /** An anchor whose href carries an in-page anchor '#' contributes nothing. */
  lemma AnchoredHrefDropped(href: string, unquote: string -> string)
    requires '#' in href
    ensures KeptName(Some(href), unquote) == None
  {
    IsWikipediaArticleExactly(href);
    if |href| > |ArticlePrefix| && href[..|ArticlePrefix|] == ArticlePrefix {
      assert href == href[..|ArticlePrefix|] + href[|ArticlePrefix|..];
    }
  }

  /**
   * `extract_links`: parse the window `page[begin:end]` (here: `anchors`
   * gives the href of every anchor element of the text, None when it has
   * none), keep the accepted names in a set, and return it as a list in
   * the set's iteration order.
   */
  method ExtractLinks(page: string, begin: nat, end: nat,
                      anchors: string -> seq<Option<string>>, unquote: string -> string)
    returns (links: seq<string>)
    ensures NoDuplicates(links)
    ensures forall n :: n in links <==> n in LinkSet(anchors(Slice(page, begin, end)), unquote)
  {
    var content := Slice(page, begin, end);
    var hrefs := anchors(content);
    var found: set<string> := {};
    for i := 0 to |hrefs|
      invariant found == LinkSet(hrefs[..i], unquote)
    {
      var href := hrefs[i];
      if href.Some? && href.value != [] && IsWikipediaArticle(href.value) {
        var name := ExtractPageName(href.value, unquote);
        if name.Some? && name.value != [] {
          found := found + {name.value};
        }
      }
      assert hrefs[..i + 1][..i] == hrefs[..i];
    }
    assert hrefs[..|hrefs|] == hrefs;
    links := [];
    var rest := found;
    while rest != {}
      invariant rest <= found
      invariant forall n :: n in links <==> n in found - rest
      invariant NoDuplicates(links)
      decreases rest
    {
      var n :| n in rest;
      assert n !in links;
      links := links + [n];
      rest := rest - {n};
    }
  }
}
