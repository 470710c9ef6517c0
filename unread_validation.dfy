/**
 * `DataStore`'s unread-count validation after fetching articles: each
 * feed's unread count is set to the number of unread articles fetched
 * for it. Fetching from the database is outside the model; the fetched
 * articles are a parameter.
 */
module UnreadValidation {
  import opened Wrappers
  import opened ArticleStatusModel
  import opened ArticleModel
  import opened FeedModel

  /** The articles of a set whose status is unread. */
  ghost function Unread(articles: set<Article>): (r: set<Article>)
    reads StatusesOf(articles)
    ensures r <= articles
  {
    set a | a in articles && !a.status.read
  }

  /** The articles of a set that carry a feed id. */
  function WithFeedID(s: set<Article>, feedID: string): (r: set<Article>)
    ensures r <= s && forall a :: a in s ==> (a in r <==> a.feedID == feedID)
  {
    set a | a in s && a.feedID == feedID
  }

  /** `article.feed == feed`: the data store's feed for the article's id is this feed (same feed id and data store id). */
  predicate ArticleOfFeed(a: Article, feed: Feed) {
    a.feedID == feed.feedID && a.accountID == feed.dataStoreID
  }

  /** The articles of a set that belong to a feed. */
  function OfFeed(s: set<Article>, feed: Feed): (r: set<Article>)
    ensures r <= s && forall a :: a in s ==> (a in r <==> ArticleOfFeed(a, feed))
  {
    set a | a in s && ArticleOfFeed(a, feed)
  }

  /** One more article adds one to the count of its own feed id and leaves every other count alone. */
  lemma {:induction false} WithFeedIDStep(s: set<Article>, a: Article, feedID: string)
    requires a !in s
    ensures |WithFeedID(s + {a}, feedID)| == |WithFeedID(s, feedID)| + (if a.feedID == feedID then 1 else 0)
  {
    if a.feedID == feedID {
      assert WithFeedID(s + {a}, feedID) == WithFeedID(s, feedID) + {a};
    } else {
      assert WithFeedID(s + {a}, feedID) == WithFeedID(s, feedID);
    }
  }

  /** One more article adds one to a feed's count when it belongs to the feed. */
  lemma {:induction false} OfFeedStep(s: set<Article>, a: Article, feed: Feed)
    requires a !in s
    ensures |OfFeed(s + {a}, feed)| == |OfFeed(s, feed)| + (if ArticleOfFeed(a, feed) then 1 else 0)
  {
    if ArticleOfFeed(a, feed) {
      assert OfFeed(s + {a}, feed) == OfFeed(s, feed) + {a};
    } else {
      assert OfFeed(s + {a}, feed) == OfFeed(s, feed);
    }
  }

  /** Marking an article read takes it out of its feed id's count: read articles never count. */
  lemma ReadArticlesDoNotCount(unread: set<Article>, a: Article, feedID: string)
    requires a in unread && a.feedID == feedID
    ensures |WithFeedID(unread - {a}, feedID)| == |WithFeedID(unread, feedID)| - 1
  {
    WithFeedIDStep(unread - {a}, a, feedID);
    assert unread - {a} + {a} == unread;
  }

  /** Among the articles of one data store the two validations agree: a feed's articles are those with its feed id. */
  lemma ValidationsAgreeWithinDataStore(s: set<Article>, feed: Feed)
    requires forall a :: a in s ==> a.accountID == feed.dataStoreID
    ensures |OfFeed(s, feed)| == |WithFeedID(s, feed.feedID)|
  {
    assert OfFeed(s, feed) == WithFeedID(s, feed.feedID);
  }

  /** The count the storage holds for a feed id, 0 when it holds none. */
  function Tally(storage: map<string, nat>, feedID: string): nat {
    if feedID in storage then storage[feedID] else 0
  }

  /** Counting one more article in its feed id's entry keeps the storage equal to the per-id counts. */
  lemma StoreStep(storage: map<string, nat>, counted: set<Article>, a: Article)
    requires a !in counted
    requires forall id :: Tally(storage, id) == |WithFeedID(counted, id)|
    ensures forall id :: Tally(storage[a.feedID := Tally(storage, a.feedID) + 1], id) == |WithFeedID(counted + {a}, id)|
  {
    forall id
      ensures Tally(storage[a.feedID := Tally(storage, a.feedID) + 1], id) == |WithFeedID(counted + {a}, id)|
    {
      WithFeedIDStep(counted, a, id);
    }
  }

  /** `unreadCountStorage`: the unread articles counted per feed id, in one pass; only ids with unread articles are stored. */
  method UnreadCountStorage(articles: set<Article>) returns (storage: map<string, nat>)
    ensures forall id :: Tally(storage, id) == |WithFeedID(Unread(articles), id)|
    ensures forall id :: id in storage ==> storage[id] > 0
  {
    ghost var unread := Unread(articles);
    ghost var counted: set<Article> := {};
    storage := map[];
    var rest := articles;
    while rest != {}
      invariant rest <= articles
      invariant counted <= unread && counted !! rest && unread - counted <= rest
      invariant forall id :: Tally(storage, id) == |WithFeedID(counted, id)|
      invariant forall id :: id in storage ==> storage[id] > 0
      decreases |rest|
    {
      var article :| article in rest;
      if !article.status.read {
        StoreStep(storage, counted, article);
        storage := storage[article.feedID := Tally(storage, article.feedID) + 1];
        counted := counted + {article};
      }
      rest := rest - {article};
    }
    assert counted == unread;
    assert Unread(articles) == unread;
  }

  /** The loop of `validateUnreadCountsAfterFetchingUnreadArticles`: each feed takes the count stored for its id, or 0. */
  method SetUnreadCountsFrom(feeds: set<Feed>, unreadCountStorage: map<string, nat>)
    modifies feeds
    ensures forall f :: f in feeds ==> f.unreadCount == Tally(unreadCountStorage, f.feedID)
    ensures forall f :: f in feeds ==> f.name == old(f.name) && f.metadata == old(f.metadata)
  {
    var rest := feeds;
    while rest != {}
      invariant rest <= feeds
      invariant forall f :: f in feeds - rest ==> f.unreadCount == Tally(unreadCountStorage, f.feedID)
      invariant forall f :: f in feeds ==> f.name == old(f.name) && f.metadata == old(f.metadata)
      decreases |rest|
    {
      var feed :| feed in rest;
      feed.SetUnreadCount(Tally(unreadCountStorage, feed.feedID));
      rest := rest - {feed};
    }
    assert feeds - rest == feeds;
  }

  /**
   * `validateUnreadCountsAfterFetchingUnreadArticles(feeds:articles:)`:
   * every given feed's unread count becomes the number of unread articles
   * with its feed id; nothing else of the feeds changes.
   */
  method ValidateUnreadCountsAfterFetchingUnreadArticles(feeds: set<Feed>, articles: set<Article>)
    modifies feeds
    ensures forall f :: f in feeds ==> f.unreadCount == |WithFeedID(Unread(articles), f.feedID)|
    ensures forall f :: f in feeds ==> f.name == old(f.name) && f.metadata == old(f.metadata)
  {
    ghost var unread := Unread(articles);
    var unreadCountStorage := UnreadCountStorage(articles);
    assert Unread(articles) == unread;
    SetUnreadCountsFrom(feeds, unreadCountStorage);
    assert forall a :: a in articles ==> a.status.read == old(a.status.read);
    assert Unread(articles) == unread;
  }

  /** The counting loop of `validateUnreadCount(feed:articles:)`: the unread articles among those given whose feed is this one. */
  method UnreadCountOfFeed(feed: Feed, articles: set<Article>) returns (feedUnreadCount: nat)
    ensures feedUnreadCount == |OfFeed(Unread(articles), feed)|
  {
    ghost var unread := Unread(articles);
    ghost var counted: set<Article> := {};
    feedUnreadCount := 0;
    var rest := articles;
    while rest != {}
      invariant rest <= articles
      invariant counted <= unread && counted !! rest && unread - counted <= rest
      invariant feedUnreadCount == |OfFeed(counted, feed)|
      decreases |rest|
    {
      var article :| article in rest;
      if !article.status.read {
        OfFeedStep(counted, article, feed);
        if ArticleOfFeed(article, feed) {
          feedUnreadCount := feedUnreadCount + 1;
        }
        counted := counted + {article};
      }
      rest := rest - {article};
    }
    assert counted == unread;
    assert feedUnreadCount == |OfFeed(unread, feed)|;
    assert Unread(articles) == unread;
  }

  /** `validateUnreadCount(feed:articles:)`: the feed's unread count becomes that count; nothing else of it changes. */
  method ValidateUnreadCount(feed: Feed, articles: set<Article>)
    modifies feed
    ensures feed.unreadCount == |OfFeed(Unread(articles), feed)|
    ensures feed.name == old(feed.name) && feed.metadata == old(feed.metadata)
  {
    ghost var unread := Unread(articles);
    var feedUnreadCount := UnreadCountOfFeed(feed, articles);
    assert Unread(articles) == unread;
    feed.SetUnreadCount(feedUnreadCount);
    assert forall a :: a in articles ==> a.status.read == old(a.status.read);
    assert Unread(articles) == unread;
  }

  /**
   * `_fetchUnreadArticles(container:limit:)` after the fetch: a query with
   * a limit does not see every unread article, so it validates nothing.
   */
  method AfterFetchingUnreadArticles(feeds: set<Feed>, articles: set<Article>, limit: Option<nat>)
    modifies feeds
    ensures limit.Some? ==> unchanged(feeds)
    ensures limit.None? ==> forall f :: f in feeds ==> f.unreadCount == |WithFeedID(Unread(articles), f.feedID)|
  {
    if limit.None? {
      ValidateUnreadCountsAfterFetchingUnreadArticles(feeds, articles);
    }
  }
}
