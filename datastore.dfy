/**
 * The container side of `DataStore`: its top-level feeds and folders, the
 * cached flattened feeds and the two feed dictionaries with their dirty
 * flags, the feed metadata keyed by URL, and the folder operations.
 * Marking the OPML file dirty is a flag; the data store's own
 * children-did-change posts are counted.
 */
module DataStoreModel {
  import opened Wrappers
  import opened FeedModel
  import opened FolderModel
  import opened ContainerModel

  /** What `existingContainer(withExternalID:)` and `existingContainers(withFeed:)` return: this data store or one of its folders. */
  datatype ContainerRef = ThisDataStore | FolderContainer(folder: Folder)

  /** The feed-id dictionary of a set of feeds: each feed's id is a key, and each key names a feed of the set with that id. */
  ghost predicate IdDictionaryFor(d: map<string, Feed>, feeds: set<Feed>) {
    (forall k :: k in d ==> d[k] in feeds && d[k].feedID == k)
    && (forall f :: f in feeds ==> f.feedID in d)
  }

  /** The external-id dictionary: its keys are exactly the external ids the feeds have. */
  ghost predicate ExternalIDDictionaryFor(d: map<string, Feed>, feeds: set<Feed>)
    reads feeds
  {
    (forall k :: k in d ==> d[k] in feeds && d[k].metadata.externalID == Some(k))
    && (forall f :: f in feeds && f.metadata.externalID.Some? ==> f.metadata.externalID.value in d)
  }

  /** `rebuildFeedDictionaries()`'s loop over the flattened feeds. */
  method FeedDictionaries(feeds: set<Feed>) returns (idDictionary: map<string, Feed>, externalIDDictionary: map<string, Feed>)
    ensures IdDictionaryFor(idDictionary, feeds)
    ensures ExternalIDDictionaryFor(externalIDDictionary, feeds)
  {
    idDictionary := map[];
    externalIDDictionary := map[];
    var rest := feeds;
    while rest != {}
      invariant rest <= feeds
      invariant IdDictionaryFor(idDictionary, feeds - rest)
      invariant ExternalIDDictionaryFor(externalIDDictionary, feeds - rest)
      decreases |rest|
    {
      var feed :| feed in rest;
      idDictionary := idDictionary[feed.feedID := feed];
      if feed.metadata.externalID.Some? {
        externalIDDictionary := externalIDDictionary[feed.metadata.externalID.value := feed];
      }
      rest := rest - {feed};
    }
  }

  /** `_flattenedFeeds`, `_idToFeedDictionary`, `_externalIDToFeedDictionary` and their two dirty flags. */
  datatype FeedCaches = FeedCaches(
    flattenedFeeds: set<Feed>, flattenedFeedsNeedUpdate: bool,
    idToFeed: map<string, Feed>, externalIDToFeed: map<string, Feed>, feedDictionariesNeedUpdate: bool)

  /** Both caches marked dirty. */
  function Dirty(c: FeedCaches): (r: FeedCaches)
    ensures r.flattenedFeedsNeedUpdate && r.feedDictionariesNeedUpdate
  {
    c.(flattenedFeedsNeedUpdate := true, feedDictionariesNeedUpdate := true)
  }

  class DataStore {
    const dataStoreID: string
    /** `Folder.incrementingID`, which new folders take their ids from. */
    const folderCounter: FolderCounter
    var externalID: Option<string>
    var topLevelFeeds: set<Feed>
    var folders: Option<set<Folder>>
    var caches: FeedCaches
    /** `feedMetadata`, keyed by feed URL. */
    var feedMetadata: map<string, FeedMetadata>
    var opmlFileIsDirty: bool
    var childrenDidChangePosts: nat

    /** A fresh data store: no feeds, an empty set of folders, every cache dirty. */
    constructor (dataStoreID: string, folderCounter: FolderCounter)
      ensures this.dataStoreID == dataStoreID && this.folderCounter == folderCounter
      ensures externalID.None? && topLevelFeeds == {} && folders == Some({})
      ensures caches.flattenedFeedsNeedUpdate && caches.feedDictionariesNeedUpdate && feedMetadata == map[]
      ensures !opmlFileIsDirty && childrenDidChangePosts == 0
    {
      this.dataStoreID := dataStoreID;
      this.folderCounter := folderCounter;
      externalID := None;
      topLevelFeeds := {};
      folders := Some({});
      caches := FeedCaches({}, true, map[], map[], true);
      feedMetadata := map[];
      opmlFileIsDirty := false;
      childrenDidChangePosts := 0;
    }

    /** The data store's flattened feeds as they are now. */
    ghost function Flattened(): set<Feed>
      reads this, FoldersIn(folders)
    {
      FlattenedFeedsOf(topLevelFeeds, folders)
    }

    /** A clean cache of flattened feeds holds the flattened feeds. */
    ghost predicate FlattenedCacheFresh()
      reads this, FoldersIn(folders)
    {
      !caches.flattenedFeedsNeedUpdate ==> caches.flattenedFeeds == Flattened()
    }

    /** Clean dictionaries are the dictionaries of the flattened feeds. */
    ghost predicate DictionariesFresh()
      reads this, FoldersIn(folders), Flattened()
    {
      !caches.feedDictionariesNeedUpdate ==>
        IdDictionaryFor(caches.idToFeed, Flattened()) && ExternalIDDictionaryFor(caches.externalIDToFeed, Flattened())
    }

    /** What `flattenedFeeds()` returns now: the cache when clean, else the feeds recomputed. */
    ghost function CurrentFlattened(): set<Feed>
      reads this, FoldersIn(folders)
    {
      if caches.flattenedFeedsNeedUpdate then Flattened() else caches.flattenedFeeds
    }

    /** `structureDidChange()`: the OPML file and both caches are dirty. */
    method StructureDidChange()
      modifies this
      ensures opmlFileIsDirty && caches == Dirty(old(caches))
      ensures topLevelFeeds == old(topLevelFeeds) && folders == old(folders) && externalID == old(externalID)
      ensures feedMetadata == old(feedMetadata) && childrenDidChangePosts == old(childrenDidChangePosts)
    {
      opmlFileIsDirty := true;
      caches := Dirty(caches);
    }

    /**
     * The post of `.ChildrenDidChange`, which the data store itself answers
     * with `structureDidChange()` and then `updateUnreadCount()`; the unread
     * count is not part of this model.
     */
    method PostChildrenDidChange()
      modifies this
      ensures childrenDidChangePosts == old(childrenDidChangePosts) + 1
      ensures opmlFileIsDirty && caches == Dirty(old(caches))
      ensures topLevelFeeds == old(topLevelFeeds) && folders == old(folders) && externalID == old(externalID)
      ensures feedMetadata == old(feedMetadata)
    {
      childrenDidChangePosts := childrenDidChangePosts + 1;
      StructureDidChange();
    }

    /**
     * `childrenDidChange(_:)` for a folder: when the folder belongs to this
     * data store, whether or not it is still in the folder tree, the OPML
     * file and both caches are dirty, so the caches are fresh again whatever
     * the folder's feeds now are; a folder of another data store changes
     * nothing. The folder's data store is told by its `dataStoreID`.
     */
    method FolderChildrenDidChange(folder: Folder)
      modifies this
      ensures folder.dataStoreID == dataStoreID ==> opmlFileIsDirty && caches == Dirty(old(caches))
      ensures folder.dataStoreID == dataStoreID ==> FlattenedCacheFresh() && DictionariesFresh()
      ensures folder.dataStoreID != dataStoreID ==> opmlFileIsDirty == old(opmlFileIsDirty) && caches == old(caches)
      ensures topLevelFeeds == old(topLevelFeeds) && folders == old(folders) && externalID == old(externalID)
      ensures feedMetadata == old(feedMetadata) && childrenDidChangePosts == old(childrenDidChangePosts)
    {
      if folder.dataStoreID == dataStoreID {
        StructureDidChange();
      }
    }

    /** `updateFlattenedFeeds()`: recomputes the cache and marks it clean. */
    method UpdateFlattenedFeeds()
      modifies this
      ensures caches == old(caches).(flattenedFeeds := Flattened(), flattenedFeedsNeedUpdate := false)
      ensures topLevelFeeds == old(topLevelFeeds) && folders == old(folders) && externalID == old(externalID)
      ensures feedMetadata == old(feedMetadata) && opmlFileIsDirty == old(opmlFileIsDirty)
      ensures childrenDidChangePosts == old(childrenDidChangePosts)
    {
      var feeds := ContainerModel.FlattenedFeeds(topLevelFeeds, folders);
      caches := caches.(flattenedFeeds := feeds, flattenedFeedsNeedUpdate := false);
    }

    /** `flattenedFeeds()`: the cache, recomputed first only when it is dirty. */
    method FlattenedFeeds() returns (r: set<Feed>)
      modifies this
      ensures r == old(CurrentFlattened())
      ensures caches == old(caches).(flattenedFeeds := r, flattenedFeedsNeedUpdate := false)
      ensures old(FlattenedCacheFresh()) ==> r == Flattened()
      ensures topLevelFeeds == old(topLevelFeeds) && folders == old(folders) && externalID == old(externalID)
      ensures feedMetadata == old(feedMetadata) && opmlFileIsDirty == old(opmlFileIsDirty)
      ensures childrenDidChangePosts == old(childrenDidChangePosts)
    {
      if caches.flattenedFeedsNeedUpdate {
        UpdateFlattenedFeeds();
      }
      r := caches.flattenedFeeds;
    }

    /** `rebuildFeedDictionaries()`: both dictionaries from the flattened feeds, and the flag cleared. */
    method RebuildFeedDictionaries()
      modifies this
      ensures caches.flattenedFeeds == old(CurrentFlattened())
      ensures IdDictionaryFor(caches.idToFeed, caches.flattenedFeeds)
      ensures ExternalIDDictionaryFor(caches.externalIDToFeed, caches.flattenedFeeds)
      ensures !caches.feedDictionariesNeedUpdate && !caches.flattenedFeedsNeedUpdate
      ensures old(FlattenedCacheFresh()) ==> FlattenedCacheFresh() && DictionariesFresh()
      ensures topLevelFeeds == old(topLevelFeeds) && folders == old(folders) && externalID == old(externalID)
      ensures feedMetadata == old(feedMetadata) && opmlFileIsDirty == old(opmlFileIsDirty)
      ensures childrenDidChangePosts == old(childrenDidChangePosts)
    {
      ghost var current := CurrentFlattened();
      var feeds := FlattenedFeeds();
      assert feeds == current;
      var idDictionary, externalIDDictionary := FeedDictionaries(feeds);
      caches := caches.(idToFeed := idDictionary, externalIDToFeed := externalIDDictionary, feedDictionariesNeedUpdate := false);
    }

    /** `existingFeed(withFeedID:)` and `existingFeed(withExternalID:)`: looked up in the dictionaries, rebuilt first when dirty. */
    method ExistingFeed(field: FeedField, value: string) returns (r: Option<Feed>)
      requires field != ByURL
      modifies this
      ensures old(FlattenedCacheFresh() && DictionariesFresh()) ==>
        (r.Some? ==> r.value in Flattened() && FeedHas(r.value, field, value))
        && (r.None? ==> forall f :: f in Flattened() ==> !FeedHas(f, field, value))
      ensures old(FlattenedCacheFresh() && DictionariesFresh()) ==> FlattenedCacheFresh() && DictionariesFresh()
      ensures topLevelFeeds == old(topLevelFeeds) && folders == old(folders) && externalID == old(externalID)
      ensures feedMetadata == old(feedMetadata) && opmlFileIsDirty == old(opmlFileIsDirty)
      ensures childrenDidChangePosts == old(childrenDidChangePosts)
    {
      if caches.feedDictionariesNeedUpdate {
        RebuildFeedDictionaries();
      }
      var d := if field == ByFeedID then caches.idToFeed else caches.externalIDToFeed;
      r := if value in d then Some(d[value]) else None;
    }

    // ------------------------------------------------------------ tree changes

    /** `addFeedToTreeAtTopLevel(_:)`. */
    method AddFeedToTreeAtTopLevel(feed: Feed)
      modifies this
      ensures topLevelFeeds == old(topLevelFeeds) + {feed}
      ensures folders == old(folders) && externalID == old(externalID) && feedMetadata == old(feedMetadata)
      ensures caches == Dirty(old(caches)) && opmlFileIsDirty
      ensures childrenDidChangePosts == old(childrenDidChangePosts) + 1
    {
      topLevelFeeds := topLevelFeeds + {feed};
      StructureDidChange();
      PostChildrenDidChange();
    }

    /** `removeFeedFromTreeAtTopLevel(_:)`. */
    method RemoveFeedFromTreeAtTopLevel(feed: Feed)
      modifies this
      ensures topLevelFeeds == old(topLevelFeeds) - {feed}
      ensures folders == old(folders) && externalID == old(externalID) && feedMetadata == old(feedMetadata)
      ensures caches == Dirty(old(caches)) && opmlFileIsDirty
      ensures childrenDidChangePosts == old(childrenDidChangePosts) + 1
    {
      topLevelFeeds := topLevelFeeds - {feed};
      StructureDidChange();
      PostChildrenDidChange();
    }

    /** `removeFeedsFromTreeAtTopLevel(_:)`: nothing at all for an empty set. */
    method RemoveFeedsFromTreeAtTopLevel(feeds: set<Feed>)
      modifies this
      ensures topLevelFeeds == old(topLevelFeeds) - feeds
      ensures folders == old(folders) && externalID == old(externalID) && feedMetadata == old(feedMetadata)
      ensures feeds == {} ==> unchanged(this)
      ensures feeds != {} ==> caches == Dirty(old(caches)) && opmlFileIsDirty
      ensures feeds != {} ==> childrenDidChangePosts == old(childrenDidChangePosts) + 1
    {
      if feeds == {} {
        return;
      }
      topLevelFeeds := topLevelFeeds - feeds;
      StructureDidChange();
      PostChildrenDidChange();
    }

    /** `addFeedIfNotInAnyFolder(_:)`: adds the feed only when `flattenedFeeds()` lacks it. */
    method AddFeedIfNotInAnyFolder(feed: Feed)
      modifies this
      ensures feed in old(CurrentFlattened()) ==> topLevelFeeds == old(topLevelFeeds)
      ensures feed !in old(CurrentFlattened()) ==> topLevelFeeds == old(topLevelFeeds) + {feed}
      ensures old(FlattenedCacheFresh()) ==> (feed in old(Flattened()) <==> topLevelFeeds == old(topLevelFeeds))
      ensures old(FlattenedCacheFresh()) ==> feed in Flattened()
      ensures folders == old(folders) && externalID == old(externalID) && feedMetadata == old(feedMetadata)
    {
      var feeds := FlattenedFeeds();
      if feed !in feeds {
        AddFeedToTreeAtTopLevel(feed);
      } else {
        FlattenedMember(topLevelFeeds, folders, feed);
      }
    }

    /** `removeFolderFromTree(_:)`: no sync provider call. */
    method RemoveFolderFromTree(folder: Folder)
      modifies this
      ensures folders == (if old(folders).Some? then Some(old(folders).value - {folder}) else None)
      ensures topLevelFeeds == old(topLevelFeeds) && externalID == old(externalID) && feedMetadata == old(feedMetadata)
      ensures caches == Dirty(old(caches)) && opmlFileIsDirty
      ensures childrenDidChangePosts == old(childrenDidChangePosts) + 1
    {
      if folders.Some? {
        folders := Some(folders.value - {folder});
      }
      StructureDidChange();
      PostChildrenDidChange();
    }

    /** `removeAllInstancesOfFeedFromTreeAtAllLevels(_:)`: out of the top level and out of every folder. */
    method RemoveAllInstancesOfFeedFromTreeAtAllLevels(feed: Feed)
      modifies this, FoldersIn(folders)
      ensures topLevelFeeds == old(topLevelFeeds) - {feed}
      ensures folders == old(folders)
      ensures forall f :: f in FoldersIn(folders) ==> f.topLevelFeeds == old(f.topLevelFeeds) - {feed}
      ensures feed !in Flattened()
      ensures externalID == old(externalID) && feedMetadata == old(feedMetadata)
      ensures caches == Dirty(old(caches)) && opmlFileIsDirty
      ensures childrenDidChangePosts == old(childrenDidChangePosts) + 1
    {
      topLevelFeeds := topLevelFeeds - {feed};
      var all := FoldersIn(folders);
      var rest := all;
      while rest != {}
        invariant rest <= all && folders == old(folders) && all == FoldersIn(folders)
        invariant topLevelFeeds == old(topLevelFeeds) - {feed}
        invariant externalID == old(externalID) && feedMetadata == old(feedMetadata)
        invariant childrenDidChangePosts == old(childrenDidChangePosts) && caches == old(caches)
        invariant forall f :: f in all - rest ==> f.topLevelFeeds == old(f.topLevelFeeds) - {feed}
        invariant forall f :: f in rest ==> f.topLevelFeeds == old(f.topLevelFeeds)
        decreases |rest|
      {
        var folder :| folder in rest;
        folder.RemoveFeedFromTreeAtTopLevel(feed);
        rest := rest - {folder};
      }
      StructureDidChange();
      PostChildrenDidChange();
      FlattenedMember(topLevelFeeds, folders, feed);
    }

    // ------------------------------------------------------------ folder operations

    /** `clearFeedMetadata(_:)`: drops the entry for the feed's URL and nothing else. */
    method ClearFeedMetadata(feed: Feed)
      modifies this
      ensures feedMetadata == old(feedMetadata) - {feed.url}
      ensures topLevelFeeds == old(topLevelFeeds) && folders == old(folders) && externalID == old(externalID)
      ensures caches == old(caches)
      ensures opmlFileIsDirty == old(opmlFileIsDirty) && childrenDidChangePosts == old(childrenDidChangePosts)
    {
      feedMetadata := feedMetadata - {feed.url};
    }

    /** `addFolderToTree(_:)`; `folders!` traps when there are none. */
    method AddFolderToTree(folder: Folder)
      requires folders.Some?
      modifies this
      ensures folders == Some(old(folders).value + {folder})
      ensures topLevelFeeds == old(topLevelFeeds) && externalID == old(externalID) && feedMetadata == old(feedMetadata)
      ensures caches == Dirty(old(caches)) && opmlFileIsDirty
      ensures childrenDidChangePosts == old(childrenDidChangePosts) + 1
    {
      folders := Some(folders.value + {folder});
      PostChildrenDidChange();
      StructureDidChange();
    }

    /**
     * `ensureFolder(with:)`: nil for an empty name; an existing folder of that
     * name as it is; otherwise one new folder of that name, inserted.
     * `folders!` traps when a folder has to be made and there are none.
     */
    method EnsureFolder(name: string) returns (r: Option<Folder>)
      requires name != "" ==> folders.Some?
      modifies this, folderCounter
      ensures name == "" ==> r.None? && unchanged(this) && unchanged(folderCounter)
      ensures name != "" ==> r.Some? && r.value.name == Some(name)
      ensures (name != "" && exists f :: f in FoldersIn(old(folders)) && f.name == Some(name)) ==>
        r.value in FoldersIn(old(folders)) && unchanged(this) && unchanged(folderCounter)
      ensures (name != "" && forall f :: f in FoldersIn(old(folders)) ==> f.name != Some(name)) ==>
        fresh(r.value) && folders == Some(old(folders).value + {r.value})
        && r.value.dataStoreID == dataStoreID && r.value.topLevelFeeds == {}
        && r.value.folderID == old(folderCounter.incrementingID)
        && folderCounter.incrementingID == old(folderCounter.incrementingID) + 1
        && topLevelFeeds == old(topLevelFeeds) && feedMetadata == old(feedMetadata) && externalID == old(externalID)
        && caches == Dirty(old(caches))
        && childrenDidChangePosts == old(childrenDidChangePosts) + 1
    {
      if name == "" {
        return None;
      }
      var existing := ContainerModel.ExistingFolder(folders, name);
      if existing.Some? {
        return existing;
      }
      var folder := new Folder(dataStoreID, Some(name), folderCounter);
      folders := Some(folders.value + {folder});
      StructureDidChange();
      PostChildrenDidChange();
      return Some(folder);
    }

    /** `ensureFolder(withFolderNames:)`: only the last name is used; nil for no names. */
    method EnsureFolderWithFolderNames(folderNames: seq<string>) returns (r: Option<Folder>)
      requires |folderNames| > 0 && folderNames[|folderNames| - 1] != "" ==> folders.Some?
      modifies this, folderCounter
      ensures |folderNames| == 0 ==> r.None? && unchanged(this) && unchanged(folderCounter)
      ensures |folderNames| > 0 && folderNames[|folderNames| - 1] != "" ==>
        r.Some? && r.value.name == Some(folderNames[|folderNames| - 1]) && r.value in FoldersIn(folders)
      ensures |folderNames| > 0 && folderNames[|folderNames| - 1] == "" ==> r.None?
    {
      if |folderNames| == 0 {
        return None;
      }
      r := EnsureFolder(folderNames[|folderNames| - 1]);
    }

    /** `existingFolder(withExternalID:)`: some folder with that external id. */
    method ExistingFolderWithExternalID(externalID: string) returns (r: Option<Folder>)
      ensures r.Some? ==> r.value in FoldersIn(folders) && r.value.externalID == Some(externalID)
      ensures r.None? <==> forall f :: f in FoldersIn(folders) ==> f.externalID != Some(externalID)
    {
      if folders.None? {
        return None;
      }
      var rest := folders.value;
      while rest != {}
        invariant rest <= folders.value
        invariant forall f :: f in folders.value - rest ==> f.externalID != Some(externalID)
        decreases |rest|
      {
        var folder :| folder in rest;
        if folder.externalID == Some(externalID) {
          return Some(folder);
        }
        rest := rest - {folder};
      }
      return None;
    }

    /** `existingContainer(withExternalID:)`: the data store itself when the id is its own, otherwise a folder. */
    method ExistingContainer(externalID: string) returns (r: Option<ContainerRef>)
      ensures this.externalID == Some(externalID) ==> r == Some(ThisDataStore)
      ensures this.externalID != Some(externalID) && r.Some? ==>
        r.value.FolderContainer? && r.value.folder in FoldersIn(folders) && r.value.folder.externalID == Some(externalID)
      ensures this.externalID != Some(externalID) ==>
        (r.None? <==> forall f :: f in FoldersIn(folders) ==> f.externalID != Some(externalID))
    {
      if this.externalID == Some(externalID) {
        return Some(ThisDataStore);
      }
      var folder := ExistingFolderWithExternalID(externalID);
      r := if folder.Some? then Some(FolderContainer(folder.value)) else None;
    }

    /** `existingContainers(withFeed:)`: the data store first if the feed is at its top level, then each folder holding it. */
    method ExistingContainers(feed: Feed) returns (r: seq<ContainerRef>)
      ensures (ThisDataStore in r) <==> feed in topLevelFeeds
      ensures feed in topLevelFeeds ==> r[0] == ThisDataStore
      ensures forall k :: 0 <= k < |r| && r[k].FolderContainer? ==> r[k].folder in FoldersIn(folders) && feed in r[k].folder.topLevelFeeds
      ensures forall f :: f in FoldersIn(folders) && feed in f.topLevelFeeds ==> FolderContainer(f) in r
      ensures forall j, k :: 0 <= j < k < |r| ==> r[j] != r[k]
    {
      r := [];
      if feed in topLevelFeeds {
        r := [ThisDataStore];
      }
      var all := FoldersIn(folders);
      var rest := all;
      while rest != {}
        invariant rest <= all
        invariant (ThisDataStore in r) <==> feed in topLevelFeeds
        invariant feed in topLevelFeeds ==> |r| > 0 && r[0] == ThisDataStore
        invariant forall k :: 0 <= k < |r| && r[k].FolderContainer? ==>
          r[k].folder in all - rest && feed in r[k].folder.topLevelFeeds
        invariant forall f :: f in all - rest && feed in f.topLevelFeeds ==> FolderContainer(f) in r
        invariant forall j, k :: 0 <= j < k < |r| ==> r[j] != r[k]
        decreases |rest|
      {
        var folder :| folder in rest;
        if feed in folder.topLevelFeeds {
          r := r + [FolderContainer(folder)];
        }
        rest := rest - {folder};
      }
    }
  }

  /** The flattened feeds after a top-level add are the old ones and the new feed. */
  lemma AddedFeedIsFlattened(topLevelFeeds: set<Feed>, folders: Option<set<Folder>>, feed: Feed)
    ensures FlattenedFeedsOf(topLevelFeeds + {feed}, folders) == FlattenedFeedsOf(topLevelFeeds, folders) + {feed}
  {
  }
}
