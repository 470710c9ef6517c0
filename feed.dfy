/**
 * A subscribed feed: its fixed identity (`feedID`, `dataStoreID`, `url`),
 * its display name and the metadata the refresher and the UI update in
 * place. The unread count, which the source keeps in the data store, is a
 * field here; notification posts are appended to `events`.
 */
module FeedModel {
  import opened Wrappers
  import opened Text
  import opened StringReed
  import opened CacheControl
  import opened ConditionalGet

  /** The notifications a feed posts. */
  datatype FeedEvent = DisplayNameDidChange | UnreadCountDidChange

  /** `FeedMetadata`: the persisted, mutable part of a feed. */
  datatype FeedMetadata = FeedMetadata(
    homePageURL: Option<string>,
    editedName: Option<string>,
    externalID: Option<string>,
    conditionalGetInfo: Option<ConditionalGetInfo>,
    conditionalGetInfoDate: Option<real>,
    cacheControlInfo: Option<CacheControlInfo>,
    contentHash: Option<string>,
    lastCheckDate: Option<real>)

  const EmptyMetadata := FeedMetadata(None, None, None, None, None, None, None, None)

  const Untitled: string := "Untitled"

  /**
   * The metadata after its `conditionalGetInfo` is set at `now`: a changed
   * value also dates the record (nil for nil), an unchanged one leaves it be.
   */
  function WithConditionalGetInfo(m: FeedMetadata, info: Option<ConditionalGetInfo>, now: real): (r: FeedMetadata)
    ensures r.conditionalGetInfo == info
    ensures info == m.conditionalGetInfo ==> r == m
    ensures info != m.conditionalGetInfo ==>
      r == m.(conditionalGetInfo := info, conditionalGetInfoDate := if info.None? then None else Some(now))
  {
    if info == m.conditionalGetInfo then m
    else m.(conditionalGetInfo := info, conditionalGetInfoDate := if info.None? then None else Some(now))
  }

  /** Dropped conditional-GET info carries no date, and a present one carries a date. */
  lemma ConditionalGetInfoDated(m: FeedMetadata, info: Option<ConditionalGetInfo>, now: real)
    requires m.conditionalGetInfo.None? <==> m.conditionalGetInfoDate.None?
    ensures var r := WithConditionalGetInfo(m, info, now);
      r.conditionalGetInfo.None? <==> r.conditionalGetInfoDate.None?
  {
  }

  /** A value that counts as set: present and not empty. */
  predicate NonEmpty(s: Option<string>) {
    s.Some? && s.value != ""
  }

  /** What the `editedName` setter stores: the value when non-empty, nil otherwise. */
  function StoredName(v: Option<string>): (r: Option<string>)
    ensures r.Some? <==> NonEmpty(v)
    ensures r.Some? ==> r == v
  {
    if NonEmpty(v) then v else None
  }

  /** What the `homePageURL` setter stores: the normalised URL of a non-empty value, nil otherwise. */
  function StoredHomePageURL(v: Option<string>): (r: Option<string>)
    ensures r.None? <==> !NonEmpty(v)
    ensures r.Some? ==> r.value == NormalizedURL(v.value) && HasPrefixCI(r.value, "http")
  {
    if NonEmpty(v) then Some(NormalizedURL(v.value)) else None
  }

  /** Storing a stored home page again changes nothing. */
  lemma StoredHomePageURLIdempotent(v: Option<string>)
    ensures StoredHomePageURL(StoredHomePageURL(v)) == StoredHomePageURL(v)
  {
    if NonEmpty(v) {
      var r := NormalizedURL(v.value);
      assert |r| >= 4;
      NormalizedIdempotent(v.value);
    }
  }

  /** `nameForDisplay` on the two names: the first non-empty one, else "Untitled". */
  function DisplayName(editedName: Option<string>, name: Option<string>): (r: string)
    ensures r != ""
    ensures NonEmpty(editedName) ==> r == editedName.value
    ensures !NonEmpty(editedName) && NonEmpty(name) ==> r == name.value
    ensures !NonEmpty(editedName) && !NonEmpty(name) ==> r == Untitled
  {
    if NonEmpty(editedName) then editedName.value
    else if NonEmpty(name) then name.value
    else Untitled
  }

  /** The start of a feed's OPML outline: the element name and its escaped `text` attribute. */
  function OPMLOpening(nameToUse: string): string {
    "<outline text=\"" + Escaped(nameToUse) + "\""
  }

  /** The rest of a feed's OPML outline: title, description, type, version and both URLs, escaped. */
  function OPMLAttributes(nameToUse: string, homePageURL: Option<string>, url: string): string {
    " title=\"" + Escaped(nameToUse)
      + "\" description=\"\" type=\"rss\" version=\"RSS\" htmlUrl=\""
      + (if homePageURL.Some? then Escaped(homePageURL.value) else "")
      + "\" xmlUrl=\"" + Escaped(url) + "\"/>\n"
  }

  /** The OPML outline line of a feed, before indentation. */
  function OPMLOutline(nameToUse: string, homePageURL: Option<string>, url: string): string {
    OPMLOpening(nameToUse) + OPMLAttributes(nameToUse, homePageURL, url)
  }

  /** A feed's OPML line begins with its tabs and opens an outline whose text is the escaped name, free of raw quotes. */
  lemma OPMLLineShape(nameToUse: string, homePageURL: Option<string>, url: string, indentLevel: nat)
    ensures var line := PrependingTabs(OPMLOutline(nameToUse, homePageURL, url), indentLevel);
      (forall i :: 0 <= i < indentLevel ==> line[i] == '\t')
      && HasPrefix(line[indentLevel..], OPMLOpening(nameToUse))
    ensures forall i :: 0 <= i < |Escaped(nameToUse)| ==> Escaped(nameToUse)[i] != '"'
  {
    EscapedHasNoRawMarkup(nameToUse);
    PrefixOfAppend(OPMLOpening(nameToUse), OPMLAttributes(nameToUse, homePageURL, url));
  }

  class Feed {
    const feedID: string
    const dataStoreID: string
    const url: string
    var name: Option<string>
    var metadata: FeedMetadata
    var unreadCount: int
    var events: seq<FeedEvent>

    /** `init(dataStore:url:metadata:)`: the feed's id comes from its metadata record. */
    constructor (dataStoreID: string, feedID: string, url: string, metadata: FeedMetadata)
      ensures this.dataStoreID == dataStoreID && this.feedID == feedID && this.url == url
      ensures this.metadata == metadata && name == None && unreadCount == 0 && events == []
    {
      this.dataStoreID := dataStoreID;
      this.feedID := feedID;
      this.url := url;
      this.metadata := metadata;
      name := None;
      unreadCount := 0;
      events := [];
    }

    /** The `editedName` getter: never the empty string. */
    function EditedName(): (r: Option<string>)
      reads this
      ensures r.Some? ==> r.value != "" && r == metadata.editedName
      ensures r.None? <==> !NonEmpty(metadata.editedName)
    {
      StoredName(metadata.editedName)
    }

    /** The `editedName` setter: stores nil for nil or "", and posts only when the value read back differs. */
    method SetEditedName(newValue: Option<string>)
      modifies this
      ensures newValue == old(EditedName()) ==> metadata == old(metadata) && events == old(events)
      ensures newValue != old(EditedName()) ==>
        metadata == old(metadata).(editedName := StoredName(newValue))
        && events == old(events) + [DisplayNameDidChange]
      ensures EditedName() == StoredName(newValue)
      ensures name == old(name) && unreadCount == old(unreadCount)
    {
      if newValue != EditedName() {
        metadata := metadata.(editedName := StoredName(newValue));
        events := events + [DisplayNameDidChange];
      }
    }

    /** `name`'s `didSet`: a change of value posts the display-name notification. */
    method SetName(newValue: Option<string>)
      modifies this
      ensures name == newValue && metadata == old(metadata) && unreadCount == old(unreadCount)
      ensures events == old(events) + (if newValue != old(name) then [DisplayNameDidChange] else [])
    {
      var oldValue := name;
      name := newValue;
      if name != oldValue {
        events := events + [DisplayNameDidChange];
      }
    }

    function HomePageURL(): Option<string>
      reads this
    {
      metadata.homePageURL
    }

    /** The `homePageURL` setter. */
    method SetHomePageURL(newValue: Option<string>)
      modifies this
      ensures metadata == old(metadata).(homePageURL := StoredHomePageURL(newValue))
      ensures name == old(name) && unreadCount == old(unreadCount) && events == old(events)
    {
      if newValue.Some? && newValue.value != "" {
        metadata := metadata.(homePageURL := Some(NormalizedURL(newValue.value)));
      } else {
        metadata := metadata.(homePageURL := None);
      }
    }

    /** `nameForDisplay`. */
    function NameForDisplay(): (r: string)
      reads this
      ensures r == DisplayName(EditedName(), name)
    {
      if EditedName().Some? && EditedName().value != "" then EditedName().value
      else if name.Some? && name.value != "" then name.value
      else Untitled
    }

    /** The `unreadCount` setter: setting the current value does nothing. */
    method SetUnreadCount(newValue: int)
      modifies this
      ensures unreadCount == newValue
      ensures events == old(events) + (if newValue == old(unreadCount) then [] else [UnreadCountDidChange])
      ensures name == old(name) && metadata == old(metadata)
    {
      if unreadCount == newValue {
        return;
      }
      unreadCount := newValue;
      events := events + [UnreadCountDidChange];
    }

    /** The `conditionalGetInfo` setter with `FeedMetadata`'s `didSet`. */
    method SetConditionalGetInfo(info: Option<ConditionalGetInfo>, now: real)
      modifies this
      ensures metadata == WithConditionalGetInfo(old(metadata), info, now)
      ensures name == old(name) && unreadCount == old(unreadCount) && events == old(events)
    {
      if info != metadata.conditionalGetInfo {
        metadata := metadata.(conditionalGetInfo := info);
        if info.None? {
          metadata := metadata.(conditionalGetInfoDate := None);
        } else {
          metadata := metadata.(conditionalGetInfoDate := Some(now));
        }
      }
    }

    /** `dropConditionalGetInfo`. */
    method DropConditionalGetInfo()
      modifies this
      ensures metadata == WithConditionalGetInfo(old(metadata), None, 0.0).(contentHash := None)
      ensures metadata.conditionalGetInfo.None? && metadata.contentHash.None?
      ensures name == old(name) && unreadCount == old(unreadCount) && events == old(events)
    {
      if metadata.conditionalGetInfo.Some? {
        metadata := metadata.(conditionalGetInfo := None, conditionalGetInfoDate := None);
      }
      metadata := metadata.(contentHash := None);
    }

    /** `OPMLString`: named by `editedName ?? name ?? ""` (never "Untitled"), all three values escaped. */
    function OPMLString(indentLevel: nat): (r: string)
      reads this
      ensures r == PrependingTabs(OPMLOutline(OrElse(EditedName(), name).GetOr(""), HomePageURL(), url), indentLevel)
    {
      var nameToUse := if EditedName().Some? then EditedName().value else if name.Some? then name.value else "";
      PrependingTabs(OPMLOutline(nameToUse, HomePageURL(), url), indentLevel)
    }
  }

  /** `==` and `hash(into:)`: a feed is identified by its feed id and its data store's id. */
  predicate SameFeed(a: Feed, b: Feed) {
    a.feedID == b.feedID && a.dataStoreID == b.dataStoreID
  }

  /** The hash key of a feed. */
  function FeedKey(f: Feed): (string, string) {
    (f.feedID, f.dataStoreID)
  }

  /** Equal feeds hash alike, and the hash key determines equality. */
  lemma SameFeedIffSameKey(a: Feed, b: Feed)
    ensures SameFeed(a, b) <==> FeedKey(a) == FeedKey(b)
  {
  }

  /** A feed without names is written to OPML with an empty name, and its display name is "Untitled". */
  lemma UnnamedFeedOPML(f: Feed, indentLevel: nat)
    requires !NonEmpty(f.metadata.editedName) && f.name.None?
    ensures HasPrefix(f.OPMLString(indentLevel)[indentLevel..], "<outline text=\"\"")
    ensures f.NameForDisplay() == Untitled
  {
    OPMLLineShape("", f.HomePageURL(), f.url, indentLevel);
    assert Escaped("") == "";
  }
}
