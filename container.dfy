/**
 * The `Container` protocol's default methods, shared by data stores and
 * folders: look-ups over a container's top-level feeds and its folders.
 * A container is given by those two values; the folder objects are read
 * for their own feeds and names.
 */
module ContainerModel {
  import opened Wrappers
  import opened FeedModel
  import opened FolderModel

  /** The folders of a container, none when `folders` is nil. */
  function FoldersIn(folders: Option<set<Folder>>): set<Folder> {
    if folders.Some? then folders.value else {}
  }

  /** The feeds held by a set of folders. */
  function FeedsOfFolders(fs: set<Folder>): set<Feed>
    reads fs
  {
    set f, x | f in fs && x in f.topLevelFeeds :: x
  }

  /** `flattenedFeeds()`: the top-level feeds and the feeds of every folder. */
  function FlattenedFeedsOf(topLevelFeeds: set<Feed>, folders: Option<set<Folder>>): (r: set<Feed>)
    reads FoldersIn(folders)
    ensures topLevelFeeds <= r
    ensures forall f :: f in FoldersIn(folders) ==> f.topLevelFeeds <= r
  {
    topLevelFeeds + FeedsOfFolders(FoldersIn(folders))
  }

  /** A feed is flattened exactly when it is at the top level or in one of the folders. */
  lemma FlattenedMember(topLevelFeeds: set<Feed>, folders: Option<set<Folder>>, feed: Feed)
    ensures feed in FlattenedFeedsOf(topLevelFeeds, folders) <==>
      feed in topLevelFeeds || exists f :: f in FoldersIn(folders) && feed in f.topLevelFeeds
  {
  }

  /** `flattenedFeeds()`'s loop: the top-level feeds, then each folder's own flattened feeds. */
  method FlattenedFeeds(topLevelFeeds: set<Feed>, folders: Option<set<Folder>>) returns (feeds: set<Feed>)
    ensures feeds == FlattenedFeedsOf(topLevelFeeds, folders)
  {
    feeds := topLevelFeeds;
    if folders.None? {
      return;
    }
    var rest := folders.value;
    while rest != {}
      invariant rest <= folders.value
      invariant feeds == topLevelFeeds + FeedsOfFolders(folders.value - rest)
      decreases |rest|
    {
      var folder :| folder in rest;
      ghost var done := folders.value - rest;
      assert folders.value - (rest - {folder}) == done + {folder};
      assert FeedsOfFolders(done + {folder}) == FeedsOfFolders(done) + folder.topLevelFeeds;
      feeds := feeds + folder.FlattenedFeeds();
      rest := rest - {folder};
    }
    assert folders.value - rest == folders.value;
  }

  /** `hasAtLeastOneFeed()`: looks at the top-level feeds only. */
  function HasAtLeastOneFeed(topLevelFeeds: set<Feed>, folders: Option<set<Folder>>): (r: bool)
    ensures r <==> topLevelFeeds != {}
  {
    |topLevelFeeds| > 0
  }

  /** A container whose feeds all sit in folders has none, by this test. */
  lemma FeedsInFoldersOnlyDoNotCount(folders: Option<set<Folder>>, f: Folder, feed: Feed)
    requires f in FoldersIn(folders) && feed in f.topLevelFeeds
    ensures !HasAtLeastOneFeed({}, folders) && feed in FlattenedFeedsOf({}, folders)
  {
  }

  /** `objectIsChild(_:)`: a feed at the top level or one of the folders. */
  predicate ObjectIsChild(topLevelFeeds: set<Feed>, folders: Option<set<Folder>>, obj: Child)
    ensures ObjectIsChild(topLevelFeeds, folders, obj) <==>
      (obj.ChildFeed? && obj.feed in topLevelFeeds) || (obj.ChildFolder? && obj.folder in FoldersIn(folders))
  {
    match obj
    case ChildFeed(feed) => feed in topLevelFeeds
    case ChildFolder(folder) => folders.Some? && folder in folders.value
    case OtherChild => false
  }

  /** `childFolder(with:)`: some folder of the container with exactly that name. */
  method ChildFolder(folders: Option<set<Folder>>, name: string) returns (r: Option<Folder>)
    ensures r.Some? ==> r.value in FoldersIn(folders) && r.value.name == Some(name)
    ensures r.None? <==> forall f :: f in FoldersIn(folders) ==> f.name != Some(name)
  {
    if folders.None? {
      return None;
    }
    var rest := folders.value;
    while rest != {}
      invariant rest <= folders.value
      invariant forall f :: f in folders.value - rest ==> f.name != Some(name)
      decreases |rest|
    {
      var folder :| folder in rest;
      if folder.name == Some(name) {
        return Some(folder);
      }
      rest := rest - {folder};
    }
    return None;
  }

  /** `hasChildFolder(with:)`. */
  method HasChildFolder(folders: Option<set<Folder>>, name: string) returns (b: bool)
    ensures b <==> exists f :: f in FoldersIn(folders) && f.name == Some(name)
  {
    var folder := ChildFolder(folders, name);
    b := folder.Some?;
  }

  /**
   * `existingFolder(with:)`: a folder with the name, searching each folder's
   * own folders too. Folders hold no subfolders, so the search is one level deep.
   */
  method ExistingFolder(folders: Option<set<Folder>>, name: string) returns (r: Option<Folder>)
    ensures r.Some? ==> r.value in FoldersIn(folders) && r.value.name == Some(name)
    ensures r.None? <==> forall f :: f in FoldersIn(folders) ==> f.name != Some(name)
    decreases if folders.Some? then 1 else 0
  {
    if folders.None? {
      return None;
    }
    var rest := folders.value;
    while rest != {}
      invariant rest <= folders.value
      invariant forall f :: f in folders.value - rest ==> f.name != Some(name)
      decreases |rest|
    {
      var folder :| folder in rest;
      if folder.name == Some(name) {
        return Some(folder);
      }
      var subFolder := ExistingFolder(folder.folders, name);
      if subFolder.Some? {
        assert false;
      }
      rest := rest - {folder};
    }
    return None;
  }

  /** `existingFolder(withID:)`: the same search, by the per-run folder id. */
  method ExistingFolderWithID(folders: Option<set<Folder>>, folderID: nat) returns (r: Option<Folder>)
    ensures r.Some? ==> r.value in FoldersIn(folders) && r.value.folderID == folderID
    ensures r.None? <==> forall f :: f in FoldersIn(folders) ==> f.folderID != folderID
    decreases if folders.Some? then 1 else 0
  {
    if folders.None? {
      return None;
    }
    var rest := folders.value;
    while rest != {}
      invariant rest <= folders.value
      invariant forall f :: f in folders.value - rest ==> f.folderID != folderID
      decreases |rest|
    {
      var folder :| folder in rest;
      if folder.folderID == folderID {
        return Some(folder);
      }
      var subFolder := ExistingFolderWithID(folder.folders, folderID);
      if subFolder.Some? {
        assert false;
      }
      rest := rest - {folder};
    }
    return None;
  }

  /** Which field `existingFeed(with…:)` compares. */
  datatype FeedField = ByFeedID | ByURL | ByExternalID

  predicate FeedHas(feed: Feed, field: FeedField, value: string)
    reads feed
  {
    match field
    case ByFeedID => feed.feedID == value
    case ByURL => feed.url == value
    case ByExternalID => feed.metadata.externalID == Some(value)
  }

  /** The loop of the `existingFeed(with…:)` look-ups over a set of feeds. */
  method FirstFeedWith(feeds: set<Feed>, field: FeedField, value: string) returns (r: Option<Feed>)
    ensures r.Some? ==> r.value in feeds && FeedHas(r.value, field, value)
    ensures r.None? <==> forall f :: f in feeds ==> !FeedHas(f, field, value)
  {
    var rest := feeds;
    while rest != {}
      invariant rest <= feeds
      invariant forall f :: f in feeds - rest ==> !FeedHas(f, field, value)
      decreases |rest|
    {
      var feed :| feed in rest;
      if FeedHas(feed, field, value) {
        return Some(feed);
      }
      rest := rest - {feed};
    }
    return None;
  }

  /** `existingFeed(withFeedID:)`, `existingFeed(withURL:)` and `existingFeed(withExternalID:)`: a flattened feed with that value. */
  method ExistingFeed(topLevelFeeds: set<Feed>, folders: Option<set<Folder>>, field: FeedField, value: string)
    returns (r: Option<Feed>)
    ensures r.Some? ==> r.value in FlattenedFeedsOf(topLevelFeeds, folders) && FeedHas(r.value, field, value)
    ensures r.None? <==> forall f :: f in FlattenedFeedsOf(topLevelFeeds, folders) ==> !FeedHas(f, field, value)
  {
    var feeds := FlattenedFeeds(topLevelFeeds, folders);
    r := FirstFeedWith(feeds, field, value);
  }

  /** `hasFeed(with:)` and `hasFeed(withURL:)`: defined by the look-up. */
  method HasFeed(topLevelFeeds: set<Feed>, folders: Option<set<Folder>>, field: FeedField, value: string) returns (b: bool)
    ensures b <==> exists f :: f in FlattenedFeedsOf(topLevelFeeds, folders) && FeedHas(f, field, value)
  {
    var feed := ExistingFeed(topLevelFeeds, folders, field, value);
    b := feed.Some?;
  }

  /** `has(_:)`: the feed is among the flattened feeds. */
  method Has(topLevelFeeds: set<Feed>, folders: Option<set<Folder>>, feed: Feed) returns (b: bool)
    ensures b <==> feed in topLevelFeeds || exists f :: f in FoldersIn(folders) && feed in f.topLevelFeeds
  {
    var feeds := FlattenedFeeds(topLevelFeeds, folders);
    FlattenedMember(topLevelFeeds, folders, feed);
    b := feed in feeds;
  }
}
