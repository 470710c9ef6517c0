/**
 * `Folder`: a named container of feeds inside a data store. Subfolders are
 * not supported, so a folder's feeds are its top-level feeds. Notification
 * posts are appended to `events`; the folder's own observers (a child's
 * unread count changing, its own children changing) recompute the unread
 * count at once, as the synchronous notification centre does.
 */
module FolderModel {
  import opened Wrappers
  import opened StringReed
  import opened FeedModel
  import Text

  datatype FolderEvent = FolderDisplayNameDidChange | FolderUnreadCountDidChange | ChildrenDidChange

  /** What `objectIsChild(_:)` may be asked about. */
  datatype Child = ChildFeed(feed: Feed) | ChildFolder(folder: Folder) | OtherChild

  const UntitledFolderName: string := "Untitled ƒ"

  /** `Folder.incrementingID`: the counter every new folder takes its id from. */
  class FolderCounter {
    var incrementingID: nat

    constructor ()
      ensures incrementingID == 0
    {
      incrementingID := 0;
    }
  }

  /** Picks some feed of a nonempty set. */
  ghost function Pick(s: set<Feed>): (f: Feed)
    requires s != {}
    ensures f in s
  {
    var f :| f in s; f
  }

  /** The sum of the unread counts of a set of feeds. */
  ghost function UnreadSum(s: set<Feed>): int
    reads s
    decreases |s|
  {
    if s == {} then 0
    else
      var f := Pick(s);
      f.unreadCount + UnreadSum(s - {f})
  }

  /** The sum takes each feed once, whichever is taken first. */
  lemma {:induction false} UnreadSumRemove(s: set<Feed>, f: Feed)
    requires f in s
    ensures UnreadSum(s) == f.unreadCount + UnreadSum(s - {f})
    decreases |s|
  {
    var x := Pick(s);
    if x != f {
      UnreadSumRemove(s - {x}, f);
      UnreadSumRemove(s - {f}, x);
      assert s - {x} - {f} == s - {f} - {x};
    }
  }

  /** Feeds that all have no unread articles sum to 0. */
  lemma {:induction false} UnreadSumOfAllRead(s: set<Feed>)
    requires forall f :: f in s ==> f.unreadCount == 0
    ensures UnreadSum(s) == 0
    decreases |s|
  {
    if s != {} {
      UnreadSumOfAllRead(s - {Pick(s)});
    }
  }

  /** The `nnw_externalID` attribute, written only when custom attributes are allowed and there is an external id. */
  function ExternalIDAttribute(externalID: Option<string>, allowCustomAttributes: bool): (r: string)
    ensures r != "" <==> allowCustomAttributes && externalID.Some?
  {
    if allowCustomAttributes && externalID.Some? then " nnw_externalID=\"" + Escaped(externalID.value) + "\"" else ""
  }

  /** The start of a folder's outline, up to the closing of its tag: `>` to open it or `/>` for an empty folder. */
  function OutlineTag(escapedTitle: string, attr: string, close: string, indentLevel: nat): string {
    PrependingTabs("<outline text=\"" + escapedTitle + "\" title=\"" + escapedTitle + "\"" + attr + close, indentLevel)
  }

  /** Strings joined end to end. */
  function Concat(parts: seq<string>): string {
    if |parts| == 0 then "" else Concat(parts[..|parts| - 1]) + parts[|parts| - 1]
  }

  /** Each feed's own OPML line at the indentation, in the order given. */
  function FeedLines(feeds: seq<Feed>, indentLevel: nat): (r: seq<string>)
    reads feeds
    ensures |r| == |feeds| && forall i :: 0 <= i < |feeds| ==> r[i] == feeds[i].OPMLString(indentLevel)
  {
    seq(|feeds|, i requires 0 <= i < |feeds| reads feeds => feeds[i].OPMLString(indentLevel))
  }

  /** The sum of the unread counts of a set of feeds. */
  method SumOfUnreadCounts(feeds: set<Feed>) returns (sum: int)
    ensures sum == UnreadSum(feeds)
  {
    sum := 0;
    var rest := feeds;
    while rest != {}
      invariant rest <= feeds
      invariant sum + UnreadSum(rest) == UnreadSum(feeds)
      decreases |rest|
    {
      var feed :| feed in rest;
      UnreadSumRemove(rest, feed);
      sum := sum + feed.unreadCount;
      rest := rest - {feed};
    }
  }

  /** The loop of `OPMLString`: appends each feed's line in turn and notes whether there was one. */
  method AppendLines(opening: string, lines: seq<string>) returns (s: string, hasAtLeastOneChild: bool)
    ensures s == opening + Concat(lines)
    ensures hasAtLeastOneChild <==> |lines| > 0
  {
    s := opening;
    hasAtLeastOneChild := false;
    var i := 0;
    while i < |lines|
      invariant 0 <= i <= |lines|
      invariant hasAtLeastOneChild <==> i > 0
      invariant s == opening + Concat(lines[..i])
    {
      assert lines[..i + 1][..i] == lines[..i];
      Text.AppendAssoc(opening, Concat(lines[..i]), lines[i]);
      s := s + lines[i];
      hasAtLeastOneChild := true;
      i := i + 1;
    }
    assert lines[..i] == lines;
  }

  /** A folder's outline: self-closing without feed lines, else opened, the lines, and closed at the same indentation. */
  function FolderOutline(escapedTitle: string, attr: string, lines: seq<string>, indentLevel: nat): string {
    if |lines| == 0 then OutlineTag(escapedTitle, attr, "/>\n", indentLevel)
    else OutlineTag(escapedTitle, attr, ">\n", indentLevel) + Concat(lines) + PrependingTabs("</outline>\n", indentLevel)
  }

  /** The body of `OPMLString` once the title, the attribute and the feeds' lines are known. */
  method OutlineString(escapedTitle: string, attrExternalID: string, lines: seq<string>, indentLevel: nat) returns (s: string)
    ensures s == FolderOutline(escapedTitle, attrExternalID, lines, indentLevel)
  {
    var opening := OutlineTag(escapedTitle, attrExternalID, ">\n", indentLevel);
    var hasAtLeastOneChild;
    s, hasAtLeastOneChild := AppendLines(opening, lines);
    if !hasAtLeastOneChild {
      s := OutlineTag(escapedTitle, attrExternalID, "/>\n", indentLevel);
      return;
    }
    s := s + PrependingTabs("</outline>\n", indentLevel);
  }

  class Folder {
    const dataStoreID: string
    const folderID: nat
    var name: Option<string>
    var externalID: Option<string>
    var topLevelFeeds: set<Feed>
    /** Subfolders are not supported: always nil. */
    const folders: Option<set<Folder>> := None
    var unreadCount: int
    var events: seq<FolderEvent>

    /** `init(dataStore:name:)`: takes the next id of the counter. */
    constructor (dataStoreID: string, name: Option<string>, counter: FolderCounter)
      modifies counter
      ensures this.dataStoreID == dataStoreID && this.name == name && folderID == old(counter.incrementingID)
      ensures counter.incrementingID == old(counter.incrementingID) + 1
      ensures externalID.None? && topLevelFeeds == {} && unreadCount == 0 && events == []
    {
      this.dataStoreID := dataStoreID;
      this.name := name;
      folderID := counter.incrementingID;
      externalID := None;
      topLevelFeeds := {};
      unreadCount := 0;
      events := [];
      counter.incrementingID := counter.incrementingID + 1;
    }

    /** `nameForDisplay`: the name, or "Untitled ƒ" for a folder without one. */
    function NameForDisplay(): (r: string)
      reads this
      ensures name.Some? ==> r == name.value
      ensures name.None? ==> r == UntitledFolderName
    {
      if name.Some? then name.value else UntitledFolderName
    }

    /** `name`'s `didSet`: every assignment posts the display-name notification. */
    method SetName(newValue: Option<string>)
      modifies this
      ensures name == newValue && topLevelFeeds == old(topLevelFeeds) && unreadCount == old(unreadCount)
      ensures externalID == old(externalID) && events == old(events) + [FolderDisplayNameDidChange]
    {
      name := newValue;
      events := events + [FolderDisplayNameDidChange];
    }

    /** `flattenedFeeds()`: without subfolders, the top-level feeds. */
    function FlattenedFeeds(): (r: set<Feed>)
      reads this
      ensures r == topLevelFeeds
    {
      topLevelFeeds
    }

    /** `objectIsChild(_:)`: only a member feed is a child. */
    predicate ObjectIsChild(obj: Child)
      reads this
      ensures ObjectIsChild(obj) <==> obj.ChildFeed? && obj.feed in topLevelFeeds
    {
      match obj
      case ChildFeed(feed) => feed in topLevelFeeds
      case _ => false
    }

    /** `unreadCount`'s `didSet`: a changed value posts the unread-count notification. */
    method SetUnreadCount(newValue: int)
      modifies this
      ensures unreadCount == newValue
      ensures events == old(events) + (if newValue != old(unreadCount) then [FolderUnreadCountDidChange] else [])
      ensures name == old(name) && externalID == old(externalID) && topLevelFeeds == old(topLevelFeeds)
    {
      var oldValue := unreadCount;
      unreadCount := newValue;
      if unreadCount != oldValue {
        events := events + [FolderUnreadCountDidChange];
      }
    }

    /** `updateUnreadCount()`: the sum of the top-level feeds' unread counts. */
    method UpdateUnreadCount()
      modifies this
      ensures unreadCount == UnreadSum(topLevelFeeds)
      ensures events == old(events) + (if unreadCount != old(unreadCount) then [FolderUnreadCountDidChange] else [])
      ensures name == old(name) && externalID == old(externalID) && topLevelFeeds == old(topLevelFeeds)
    {
      var updatedUnreadCount := SumOfUnreadCounts(topLevelFeeds);
      SetUnreadCount(updatedUnreadCount);
    }

    /** The observer of the unread-count notification: a change in a child feed is summed again. */
    method UnreadCountDidChangeIn(obj: Child)
      modifies this
      ensures ObjectIsChild(obj) ==> unreadCount == UnreadSum(topLevelFeeds)
      ensures !ObjectIsChild(obj) ==> unreadCount == old(unreadCount) && events == old(events)
      ensures name == old(name) && externalID == old(externalID) && topLevelFeeds == old(topLevelFeeds)
    {
      if ObjectIsChild(obj) {
        UpdateUnreadCount();
      }
    }

    /** `postChildrenDidChangeNotification()`, which the folder itself observes by summing again. */
    method PostChildrenDidChange()
      modifies this
      ensures unreadCount == UnreadSum(topLevelFeeds)
      ensures |events| >= |old(events)| + 1 && events[..|old(events)| + 1] == old(events) + [ChildrenDidChange]
      ensures name == old(name) && externalID == old(externalID) && topLevelFeeds == old(topLevelFeeds)
    {
      events := events + [ChildrenDidChange];
      UpdateUnreadCount();
    }

    /** `addFeedToTreeAtTopLevel(_:)`. */
    method AddFeedToTreeAtTopLevel(feed: Feed)
      modifies this
      ensures topLevelFeeds == old(topLevelFeeds) + {feed}
      ensures unreadCount == UnreadSum(topLevelFeeds)
      ensures name == old(name) && externalID == old(externalID)
    {
      topLevelFeeds := topLevelFeeds + {feed};
      PostChildrenDidChange();
    }

    /** `addFeeds(_:)`: nothing at all for an empty set. */
    method AddFeeds(feeds: set<Feed>)
      modifies this
      ensures topLevelFeeds == old(topLevelFeeds) + feeds
      ensures feeds == {} ==> unreadCount == old(unreadCount) && events == old(events)
      ensures feeds != {} ==> unreadCount == UnreadSum(topLevelFeeds)
      ensures name == old(name) && externalID == old(externalID)
    {
      if feeds == {} {
        return;
      }
      topLevelFeeds := topLevelFeeds + feeds;
      PostChildrenDidChange();
    }

    /** `removeFeedFromTreeAtTopLevel(_:)`. */
    method RemoveFeedFromTreeAtTopLevel(feed: Feed)
      modifies this
      ensures topLevelFeeds == old(topLevelFeeds) - {feed}
      ensures unreadCount == UnreadSum(topLevelFeeds)
      ensures name == old(name) && externalID == old(externalID)
    {
      topLevelFeeds := topLevelFeeds - {feed};
      PostChildrenDidChange();
    }

    /** `removeFeedsFromTreeAtTopLevel(_:)`: nothing at all for an empty set. */
    method RemoveFeedsFromTreeAtTopLevel(feeds: set<Feed>)
      modifies this
      ensures topLevelFeeds == old(topLevelFeeds) - feeds
      ensures feeds == {} ==> unreadCount == old(unreadCount) && events == old(events)
      ensures feeds != {} ==> unreadCount == UnreadSum(topLevelFeeds)
      ensures name == old(name) && externalID == old(externalID)
    {
      if feeds == {} {
        return;
      }
      topLevelFeeds := topLevelFeeds - feeds;
      PostChildrenDidChange();
    }

    /** The folder's OPML, with its feeds listed in `sorted` order (the localized sort is not modelled). */
    function OPML(indentLevel: nat, allowCustomAttributes: bool, sorted: seq<Feed>): string
      reads this, sorted
    {
      FolderOutline(Escaped(NameForDisplay()), ExternalIDAttribute(externalID, allowCustomAttributes),
        FeedLines(sorted, indentLevel + 1), indentLevel)
    }

    /** `OPMLString(indentLevel:allowCustomAttributes:)`, given the feeds in their sorted order. */
    method OPMLString(indentLevel: nat, allowCustomAttributes: bool, sorted: seq<Feed>) returns (s: string)
      requires forall f :: f in sorted <==> f in topLevelFeeds
      ensures s == OPML(indentLevel, allowCustomAttributes, sorted)
    {
      var attrExternalID := ExternalIDAttribute(externalID, allowCustomAttributes);
      var escapedTitle := EscapingSpecialXMLCharacters(NameForDisplay());
      var lines := FeedLines(sorted, indentLevel + 1);
      s := OutlineString(escapedTitle, attrExternalID, lines, indentLevel);
    }
  }

  /** A folder without feeds is one self-closing outline line at its indentation. */
  lemma EmptyFolderOPML(folder: Folder, indentLevel: nat, allowCustomAttributes: bool)
    ensures var s := folder.OPML(indentLevel, allowCustomAttributes, []);
      var t := Escaped(folder.NameForDisplay());
      (forall i :: 0 <= i < indentLevel ==> s[i] == '\t')
      && s[indentLevel..] == "<outline text=\"" + t + "\" title=\"" + t + "\""
        + ExternalIDAttribute(folder.externalID, allowCustomAttributes) + "/>\n"
  {
  }

  /**
   * A folder with feeds opens its outline, lists each feed one level deeper,
   * and closes the outline at its own indentation.
   */
  lemma FolderWithFeedsOPML(folder: Folder, indentLevel: nat, allowCustomAttributes: bool, sorted: seq<Feed>)
    requires |sorted| > 0
    ensures var s := folder.OPML(indentLevel, allowCustomAttributes, sorted);
      var t := Escaped(folder.NameForDisplay());
      var opening := OutlineTag(t, ExternalIDAttribute(folder.externalID, allowCustomAttributes), ">\n", indentLevel);
      var closing := PrependingTabs("</outline>\n", indentLevel);
      |s| == |opening| + |Concat(FeedLines(sorted, indentLevel + 1))| + |closing|
      && s[..|opening|] == opening
      && s[|s| - |closing|..] == closing
      && s[|opening|..|s| - |closing|] == Concat(FeedLines(sorted, indentLevel + 1))
  {
  }
}
