/**
 * `SidebarItemIdentifier`: names a smart feed, a script, a feed or a folder
 * in the sidebar, converts to and from a userInfo dictionary of strings, and
 * describes itself for logging.
 */
module SidebarId {
  import opened Wrappers

  datatype SidebarItemIdentifier =
    | SmartFeed(id: string)
    | Script(id: string)
    | Feed(dataStoreID: string, feedID: string)
    | Folder(dataStoreID: string, folderName: string)

  /** `typeName`. */
  function TypeName(x: SidebarItemIdentifier): string {
    match x
    case SmartFeed(_) => "smartFeed"
    case Script(_) => "script"
    case Feed(_, _) => "feed"
    case Folder(_, _) => "folder"
  }

  /** The dictionary keys; the data store's id keeps its old name "accountID". */
  const TypeKey := "type"
  const IdKey := "id"
  const DataStoreIDKey := "accountID"
  const FeedIDKey := "feedID"
  const OldFeedIDKey := "webFeedID"
  const FolderNameKey := "folderName"

  /** `userInfo`: the type name, then the case's own values. */
  function UserInfo(x: SidebarItemIdentifier): (r: map<string, string>)
    ensures TypeKey in r && r[TypeKey] == TypeName(x)
  {
    var d := map[TypeKey := TypeName(x)];
    match x
    case SmartFeed(id) => d[IdKey := id]
    case Script(id) => d[IdKey := id]
    case Feed(dataStoreID, feedID) => d[DataStoreIDKey := dataStoreID][FeedIDKey := feedID]
    case Folder(dataStoreID, folderName) => d[DataStoreIDKey := dataStoreID][FolderNameKey := folderName]
  }

  function Lookup(d: map<string, string>, key: string): Option<string> {
    if key in d then Some(d[key]) else None
  }

  /** `init?(userInfo:)`. */
  function FromUserInfo(d: map<string, string>): (r: Option<SidebarItemIdentifier>)
    ensures r.Some? ==> TypeKey in d && d[TypeKey] == TypeName(r.value)
  {
    match Lookup(d, TypeKey)
    case None => None
    case Some(t) =>
      if t == "smartFeed" then
        (match Lookup(d, IdKey) case None => None case Some(id) => Some(SmartFeed(id)))
      else if t == "script" then
        (match Lookup(d, IdKey) case None => None case Some(id) => Some(Script(id)))
      else if t == "feed" then
        (match (Lookup(d, DataStoreIDKey), OrElse(Lookup(d, FeedIDKey), Lookup(d, OldFeedIDKey)))
         case (Some(dataStoreID), Some(feedID)) => Some(Feed(dataStoreID, feedID))
         case _ => None)
      else if t == "folder" then
        (match (Lookup(d, DataStoreIDKey), Lookup(d, FolderNameKey))
         case (Some(dataStoreID), Some(folderName)) => Some(Folder(dataStoreID, folderName))
         case _ => None)
      else None
  }

  /** Reading back a userInfo dictionary gives the identifier it was made from. */
  lemma UserInfoRoundTrip(x: SidebarItemIdentifier)
    ensures FromUserInfo(UserInfo(x)) == Some(x)
  {
  }

  /** A feed written by an older build, under "webFeedID", is still read; "feedID" wins when both are there. */
  lemma LegacyFeedIDAccepted(dataStoreID: string, feedID: string, other: string)
    ensures FromUserInfo(map[TypeKey := "feed", DataStoreIDKey := dataStoreID, OldFeedIDKey := feedID]) == Some(Feed(dataStoreID, feedID))
    ensures FromUserInfo(map[TypeKey := "feed", DataStoreIDKey := dataStoreID, FeedIDKey := feedID, OldFeedIDKey := other])
      == Some(Feed(dataStoreID, feedID))
  {
    var d := map[TypeKey := "feed", DataStoreIDKey := dataStoreID, OldFeedIDKey := feedID];
    assert FeedIDKey !in d;
  }

  /** No type, an unknown type, or a required value missing: no identifier. */
  lemma FromUserInfoRejects(d: map<string, string>)
    ensures TypeKey !in d ==> FromUserInfo(d).None?
    ensures TypeKey in d && d[TypeKey] !in {"smartFeed", "script", "feed", "folder"} ==> FromUserInfo(d).None?
    ensures TypeKey in d && d[TypeKey] in {"smartFeed", "script"} && IdKey !in d ==> FromUserInfo(d).None?
    ensures TypeKey in d && d[TypeKey] in {"feed", "folder"} && DataStoreIDKey !in d ==> FromUserInfo(d).None?
    ensures TypeKey in d && d[TypeKey] == "feed" && FeedIDKey !in d && OldFeedIDKey !in d ==> FromUserInfo(d).None?
    ensures TypeKey in d && d[TypeKey] == "folder" && FolderNameKey !in d ==> FromUserInfo(d).None?
  {
  }

  // ---------------------------------------------------------------- description

  /** The ids a description ends with: the id, or the data store's id and the second value joined by "_". */
  function DescribedIDs(x: SidebarItemIdentifier): string {
    match x
    case SmartFeed(id) => id
    case Script(id) => id
    case Feed(dataStoreID, feedID) => dataStoreID + "_" + feedID
    case Folder(dataStoreID, folderName) => dataStoreID + "_" + folderName
  }

  /** `description` as written: the interpolation lacks its backslash, so every case starts with the text "(typeName): ". */
  function DescriptionAsWritten(x: SidebarItemIdentifier): string {
    "(typeName): " + DescribedIDs(x)
  }

  /** As written, a smart feed and a script with the same id are described alike. */
  lemma DescriptionAsWrittenConfusesKinds()
    ensures TypeName(SmartFeed("a")) != TypeName(Script("a"))
    ensures DescriptionAsWritten(SmartFeed("a")) == DescriptionAsWritten(Script("a"))
  {
  }

  /** `description` as evidently intended: the type name, ": ", then the ids. */
  function Description(x: SidebarItemIdentifier): (r: string)
    ensures |r| > |TypeName(x)| + 1 && r[..|TypeName(x)|] == TypeName(x)
    ensures r[|TypeName(x)|..|TypeName(x)| + 2] == ": "
  {
    TypeName(x) + ": " + DescribedIDs(x)
  }

  /** Identifiers of different kinds are described differently. */
  lemma DescriptionTellsKindsApart(x: SidebarItemIdentifier, y: SidebarItemIdentifier)
    requires TypeName(x) != TypeName(y)
    ensures Description(x) != Description(y)
  {
    var dx, dy := Description(x), Description(y);
    if TypeName(x)[0] == TypeName(y)[0] {
      assert dx[1] != dy[1];
    } else {
      assert dx[0] != dy[0];
    }
  }

  /** Two identifiers of the same kind with the same ids are described alike, and only then. */
  lemma DescriptionWithinKind(x: SidebarItemIdentifier, y: SidebarItemIdentifier)
    requires TypeName(x) == TypeName(y)
    ensures Description(x) == Description(y) <==> DescribedIDs(x) == DescribedIDs(y)
  {
    var n := |TypeName(x)| + 2;
    if Description(x) == Description(y) {
      assert DescribedIDs(x) == Description(x)[n..];
      assert DescribedIDs(y) == Description(y)[n..];
    }
  }
}
