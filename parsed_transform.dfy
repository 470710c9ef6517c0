/**
 * `ParsedFeedTransformer`: turns the feed, articles, authors and enclosures
 * the RSS parser produces into the parser's Swift types: a `ParsedFeed`
 * with a set of `ParsedItem`s, their authors and their attachments.
 *
 * Dates are kept as opaque numbers; rendering Markdown into HTML, which
 * `ParsedItem`'s initializer does, is the parameter `render`.
 */
module ParsedFeedTransformerModel {
  import opened Wrappers
  import opened AuthorModel

  // ---------------------------------------------------------------- the parser's objects

  datatype RDParsedAuthor = RDParsedAuthor(name: Option<string>, url: Option<string>, emailAddress: Option<string>)

  datatype RDParsedEnclosure = RDParsedEnclosure(url: string, mimeType: Option<string>, length: int)

  datatype RDParsedArticle = RDParsedArticle(
    articleID: string,
    feedURL: string,
    permalink: Option<string>,
    link: Option<string>,
    title: Option<string>,
    language: Option<string>,
    body: Option<string>,
    markdown: Option<string>,
    datePublished: Option<int>,
    dateModified: Option<int>,
    authors: Option<set<RDParsedAuthor>>,
    enclosures: Option<set<RDParsedEnclosure>>)

  datatype RDParsedFeed = RDParsedFeed(
    urlString: string,
    title: Option<string>,
    homepageURLString: Option<string>,
    language: Option<string>,
    articles: set<RDParsedArticle>)

  // ---------------------------------------------------------------- the Swift types

  /** The feed kinds this transformer and its Atom sibling produce. */
  datatype FeedType = RSS | Atom

  datatype ParsedAttachment = ParsedAttachment(
    url: string,
    mimeType: Option<string>,
    title: Option<string>,
    sizeInBytes: Option<int>,
    durationInSeconds: Option<int>)

  datatype ParsedItem = ParsedItem(
    syncServiceID: Option<string>,
    uniqueID: string,
    feedURL: string,
    url: Option<string>,
    externalURL: Option<string>,
    title: Option<string>,
    language: Option<string>,
    contentHTML: Option<string>,
    contentText: Option<string>,
    markdown: Option<string>,
    summary: Option<string>,
    imageURL: Option<string>,
    bannerImageURL: Option<string>,
    datePublished: Option<int>,
    dateModified: Option<int>,
    authors: Option<set<ParsedAuthor>>,
    tags: Option<set<string>>,
    attachments: Option<set<ParsedAttachment>>)

  datatype ParsedFeed = ParsedFeed(
    feedType: FeedType,
    title: Option<string>,
    homePageURL: Option<string>,
    feedURL: string,
    language: Option<string>,
    feedDescription: Option<string>,
    nextURL: Option<string>,
    iconURL: Option<string>,
    faviconURL: Option<string>,
    authors: Option<set<ParsedAuthor>>,
    expired: bool,
    hubs: Option<set<string>>,
    items: set<ParsedItem>)

  // ---------------------------------------------------------------- the transformer

  /** `ParsedAuthor(name:url:avatarURL:emailAddress:)` for one parser author: no avatar. */
  function ParsedAuthorFrom(author: RDParsedAuthor): ParsedAuthor {
    ParsedAuthor(author.name, author.url, None, author.emailAddress)
  }

  /** `parsedAuthors(_:)`: nil for nil or no authors, else each one converted. */
  function ParsedAuthors(authors: Option<set<RDParsedAuthor>>): (r: Option<set<ParsedAuthor>>)
    ensures authors.None? || authors.value == {} ==> r.None?
    ensures r.Some? ==> forall a :: a in r.value ==> a.avatarURL.None?
  {
    if authors.None? || authors.value == {} then None
    else
      var transformedAuthors := set a | a in authors.value :: ParsedAuthorFrom(a);
      if transformedAuthors == {} then None else Some(transformedAuthors)
  }

  /** Every parser author is kept, with its name, url and e-mail, and nothing else is added; a non-empty input is never dropped. */
  lemma ParsedAuthorsKeepEveryAuthor(authors: set<RDParsedAuthor>)
    requires authors != {}
    ensures ParsedAuthors(Some(authors)).Some?
    ensures forall a :: a in authors ==>
      ParsedAuthor(a.name, a.url, None, a.emailAddress) in ParsedAuthors(Some(authors)).value
    ensures forall p :: p in ParsedAuthors(Some(authors)).value ==>
      exists a :: a in authors && p == ParsedAuthor(a.name, a.url, None, a.emailAddress)
  {
    var a :| a in authors;
    var transformed := set b | b in authors :: ParsedAuthorFrom(b);
    assert ParsedAuthorFrom(a) in transformed;
    assert ParsedAuthors(Some(authors)) == Some(transformed);
  }

  /** `enclosure.length > 0 ? enclosure.length : nil`. */
  function SizeInBytes(length: int): (r: Option<int>)
    ensures r.Some? <==> length > 0
    ensures r.Some? ==> r.value == length
  {
    if length > 0 then Some(length) else None
  }

  function ParsedAttachmentFrom(enclosure: RDParsedEnclosure): ParsedAttachment {
    ParsedAttachment(enclosure.url, enclosure.mimeType, None, SizeInBytes(enclosure.length), None)
  }

  /** `parsedAttachments(_:)`: nil for nil or no enclosures, else each one converted. */
  function ParsedAttachments(enclosures: Option<set<RDParsedEnclosure>>): (r: Option<set<ParsedAttachment>>)
    ensures enclosures.None? || enclosures.value == {} ==> r.None?
    ensures r.Some? ==> forall a :: a in r.value ==> a.title.None? && a.durationInSeconds.None?
    ensures r.Some? ==> forall a :: a in r.value && a.sizeInBytes.Some? ==> a.sizeInBytes.value > 0
  {
    if enclosures.None? || enclosures.value == {} then None
    else
      var attachments := set e | e in enclosures.value :: ParsedAttachmentFrom(e);
      if attachments == {} then None else Some(attachments)
  }

  /** Every enclosure becomes an attachment with its url and type, sized only by a positive length. */
  lemma ParsedAttachmentsKeepEveryEnclosure(enclosures: set<RDParsedEnclosure>)
    requires enclosures != {}
    ensures ParsedAttachments(Some(enclosures)).Some?
    ensures forall e :: e in enclosures ==>
      ParsedAttachment(e.url, e.mimeType, None, if e.length > 0 then Some(e.length) else None, None) in ParsedAttachments(Some(enclosures)).value
    ensures forall p :: p in ParsedAttachments(Some(enclosures)).value ==>
      exists e :: e in enclosures && p.url == e.url && p.mimeType == e.mimeType
  {
    var e :| e in enclosures;
    var attachments := set f | f in enclosures :: ParsedAttachmentFrom(f);
    assert ParsedAttachmentFrom(e) in attachments;
    assert ParsedAttachments(Some(enclosures)) == Some(attachments);
  }

  /** `ParsedItem.init`'s content: the rendered Markdown when there is Markdown, else the HTML body. */
  function ContentHTML(body: Option<string>, markdown: Option<string>, render: string -> string): Option<string> {
    if markdown.Some? then Some(render(markdown.value)) else body
  }

  /** `parsedItem(_:)`. */
  function ParsedItemFrom(article: RDParsedArticle, render: string -> string): ParsedItem {
    ParsedItem(
      None, article.articleID, article.feedURL, article.permalink, article.link,
      article.title, article.language, ContentHTML(article.body, article.markdown, render),
      None, article.markdown, None, None, None,
      article.datePublished, article.dateModified,
      ParsedAuthors(article.authors), None, ParsedAttachments(article.enclosures))
  }

  /** Each item takes its ids and links from the article, its content from the body or the Markdown, and no text, summary or image. */
  lemma ParsedItemFields(article: RDParsedArticle, render: string -> string)
    ensures var item := ParsedItemFrom(article, render);
      && item.uniqueID == article.articleID && item.feedURL == article.feedURL
      && item.url == article.permalink && item.externalURL == article.link
      && item.title == article.title && item.language == article.language && item.markdown == article.markdown
      && item.datePublished == article.datePublished && item.dateModified == article.dateModified
      && (article.markdown.None? ==> item.contentHTML == article.body)
      && (article.markdown.Some? ==> item.contentHTML == Some(render(article.markdown.value)))
      && item.syncServiceID.None? && item.contentText.None? && item.summary.None?
      && item.imageURL.None? && item.bannerImageURL.None? && item.tags.None?
      && (article.authors.None? ==> item.authors.None?)
      && (article.enclosures.None? ==> item.attachments.None?)
  {
  }

  /** `parsedItems(_:)`: the set of converted articles. */
  function ParsedItems(articles: set<RDParsedArticle>, render: string -> string): (r: set<ParsedItem>)
    ensures forall a :: a in articles ==> ParsedItemFrom(a, render) in r
  {
    set a | a in articles :: ParsedItemFrom(a, render)
  }

  /** `parsedFeed(_:)`: always an RSS feed with the parser's title, home page, url and language, and nothing else but its items. */
  function ParsedFeedFrom(feed: RDParsedFeed, render: string -> string): (r: ParsedFeed)
    ensures r.feedType == RSS
    ensures r.title == feed.title && r.homePageURL == feed.homepageURLString && r.feedURL == feed.urlString && r.language == feed.language
    ensures r.feedDescription.None? && r.nextURL.None? && r.iconURL.None? && r.faviconURL.None?
    ensures r.authors.None? && !r.expired && r.hubs.None?
  {
    ParsedFeed(RSS, feed.title, feed.homepageURLString, feed.urlString, feed.language,
      None, None, None, None, None, false, None, ParsedItems(feed.articles, render))
  }

  /** The feed's item ids are exactly its articles' ids, and there are no more items than articles. */
  lemma ParsedFeedItemIDs(feed: RDParsedFeed, render: string -> string)
    ensures (set i | i in ParsedFeedFrom(feed, render).items :: i.uniqueID) == (set a | a in feed.articles :: a.articleID)
    ensures |ParsedFeedFrom(feed, render).items| <= |feed.articles|
  {
    var items := ParsedFeedFrom(feed, render).items;
    forall a | a in feed.articles
      ensures a.articleID in (set i | i in items :: i.uniqueID)
    {
      assert ParsedItemFrom(a, render) in items;
    }
    ImageSize(feed.articles, render);
  }

  /** The image of a set under the item conversion is no larger than the set. */
  lemma {:induction false} ImageSize(articles: set<RDParsedArticle>, render: string -> string)
    ensures |ParsedItems(articles, render)| <= |articles|
    decreases |articles|
  {
    if articles != {} {
      var a :| a in articles;
      var rest := articles - {a};
      ImageSize(rest, render);
      assert ParsedItems(articles, render) <= ParsedItems(rest, render) + {ParsedItemFrom(a, render)};
      SubsetSize(ParsedItems(articles, render), ParsedItems(rest, render) + {ParsedItemFrom(a, render)});
    }
  }

  lemma SubsetSize<T>(a: set<T>, b: set<T>)
    requires a <= b
    ensures |a| <= |b|
  {
    assert b == a + (b - a);
  }
}
