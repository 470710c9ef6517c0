/**
 * `ContainerIdentifier`: names the smart-feed controller, a data store or a
 * folder of a data store, and converts to and from a userInfo dictionary
 * and a keyed coding container. Older builds wrote "account" and
 * "accountID"; both readers still accept them.
 */
module ContainerId {
  import opened Wrappers

  /** A dictionary value: a string, or some other hashable value that `as? String` rejects. */
  datatype Value = Str(s: string) | NonString(tag: int)

  datatype ContainerIdentifier =
    | SmartFeedController
    | DataStore(dataStoreID: string)
    | Folder(dataStoreID: string, folderName: string)

  /** `x as? String` for `userInfo[key]`. */
  function StringFor(d: map<string, Value>, key: string): (r: Option<string>)
    ensures r.Some? <==> key in d && d[key].Str?
    ensures r.Some? ==> d[key] == Str(r.value)
  {
    if key in d && d[key].Str? then Some(d[key].s) else None
  }

  /** `userInfo`. */
  function UserInfo(x: ContainerIdentifier): map<string, Value> {
    match x
    case SmartFeedController => map["type" := Str("smartFeedController")]
    case DataStore(dataStoreID) => map["type" := Str("dataStore"), "dataStoreID" := Str(dataStoreID)]
    case Folder(dataStoreID, folderName) =>
      map["type" := Str("folder"), "dataStoreID" := Str(dataStoreID), "folderName" := Str(folderName)]
  }

  /** The data store's id under its current key, or else under the legacy "accountID". */
  function DataStoreIDIn(d: map<string, Value>): Option<string> {
    OrElse(StringFor(d, "dataStoreID"), StringFor(d, "accountID"))
  }

  /** `init?(userInfo:)`. */
  function FromUserInfo(d: map<string, Value>): (r: Option<ContainerIdentifier>)
    ensures r.Some? ==> StringFor(d, "type").Some?
    ensures r.Some? && r.value.Folder? ==> StringFor(d, "folderName") == Some(r.value.folderName)
  {
    match StringFor(d, "type")
    case None => None
    case Some(t) =>
      if t == "smartFeedController" then Some(SmartFeedController)
      else if t == "dataStore" || t == "account" then
        (match DataStoreIDIn(d)
         case None => None
         case Some(id) => Some(DataStore(id)))
      else if t == "folder" then
        (match (DataStoreIDIn(d), StringFor(d, "folderName"))
         case (Some(id), Some(name)) => Some(Folder(id, name))
         case _ => None)
      else None
  }

  /** Reading back a userInfo dictionary gives the identifier it was made from. */
  lemma UserInfoRoundTrip(x: ContainerIdentifier)
    ensures FromUserInfo(UserInfo(x)) == Some(x)
  {
  }

  /** The legacy spellings: type "account" and key "accountID" name the same identifiers. */
  lemma LegacyUserInfoAccepted(id: string, name: string)
    ensures FromUserInfo(map["type" := Str("account"), "accountID" := Str(id)]) == Some(DataStore(id))
    ensures FromUserInfo(map["type" := Str("dataStore"), "accountID" := Str(id)]) == Some(DataStore(id))
    ensures FromUserInfo(map["type" := Str("folder"), "accountID" := Str(id), "folderName" := Str(name)]) == Some(Folder(id, name))
  {
    var m1 := map["type" := Str("account"), "accountID" := Str(id)];
    assert StringFor(m1, "dataStoreID").None?;
    var m2 := map["type" := Str("dataStore"), "accountID" := Str(id)];
    assert StringFor(m2, "dataStoreID").None?;
    var m3 := map["type" := Str("folder"), "accountID" := Str(id), "folderName" := Str(name)];
    assert StringFor(m3, "dataStoreID").None?;
  }

  /** Without a string type, with an unknown type, or for a folder without its name, there is no identifier. */
  lemma FromUserInfoRejects(d: map<string, Value>)
    ensures StringFor(d, "type").None? ==> FromUserInfo(d).None?
    ensures (StringFor(d, "type").Some? && StringFor(d, "type").value !in {"smartFeedController", "dataStore", "account", "folder"})
      ==> FromUserInfo(d).None?
    ensures StringFor(d, "type") == Some("folder") && StringFor(d, "folderName").None? ==> FromUserInfo(d).None?
  {
  }

  // ---------------------------------------------------------------- Codable

  /** A keyed coding container: the encoded strings by coding key. */
  type Container = map<string, string>

  /** Why `init(from:)` throws: a key it requires is missing. */
  datatype DecodingError = KeyNotFound(key: string)

  /** `encode(to:)`. */
  function Encode(x: ContainerIdentifier): Container {
    match x
    case SmartFeedController => map["type" := "smartFeedController"]
    case DataStore(dataStoreID) => map["type" := "dataStore", "dataStoreID" := dataStoreID]
    case Folder(dataStoreID, folderName) => map["type" := "folder", "dataStoreID" := dataStoreID, "folderName" := folderName]
  }

  /** `try container.decode(String.self, forKey: key)`. */
  function DecodeKey(c: Container, key: string): Result<string, DecodingError> {
    if key in c then Success(c[key]) else Failure(KeyNotFound(key))
  }

  /**
   * `init(from:)`: like the userInfo reader, except that every type other
   * than the smart-feed controller and a data store is read as a folder.
   */
  function Decode(c: Container): (r: Result<ContainerIdentifier, DecodingError>)
    ensures "type" !in c ==> r == Failure(KeyNotFound("type"))
  {
    match DecodeKey(c, "type")
    case Failure(e) => Failure(e)
    case Success(t) =>
      if t == "smartFeedController" then Success(SmartFeedController)
      else if t == "dataStore" || t == "account" then
        (if "dataStoreID" in c then Success(DataStore(c["dataStoreID"]))
         else match DecodeKey(c, "accountID")
              case Failure(e) => Failure(e)
              case Success(id) => Success(DataStore(id)))
      else
        match DecodeKey(c, "folderName")
        case Failure(e) => Failure(e)
        case Success(folderName) =>
          if "dataStoreID" in c then Success(Folder(c["dataStoreID"], folderName))
          else match DecodeKey(c, "accountID")
               case Failure(e) => Failure(e)
               case Success(id) => Success(Folder(id, folderName))
  }

  /** Decoding what was encoded gives the identifier back. */
  lemma DecodeEncode(x: ContainerIdentifier)
    ensures Decode(Encode(x)) == Success(x)
  {
  }

  /** A dictionary of an unknown type, which the userInfo reader rejects, decodes as a folder. */
  lemma DecodeUnknownTypeAsFolder(t: string, id: string, name: string)
    requires t !in {"smartFeedController", "dataStore", "account", "folder"}
    ensures Decode(map["type" := t, "dataStoreID" := id, "folderName" := name]) == Success(Folder(id, name))
    ensures FromUserInfo(map["type" := Str(t), "dataStoreID" := Str(id), "folderName" := Str(name)]).None?
  {
    var d := map["type" := Str(t), "dataStoreID" := Str(id), "folderName" := Str(name)];
    assert StringFor(d, "type") == Some(t);
  }

  /** The legacy "accountID" key is decoded when "dataStoreID" is absent. */
  lemma DecodeLegacyAccountID(id: string, name: string)
    ensures Decode(map["type" := "account", "accountID" := id]) == Success(DataStore(id))
    ensures Decode(map["type" := "folder", "accountID" := id, "folderName" := name]) == Success(Folder(id, name))
  {
    var c1: Container := map["type" := "account", "accountID" := id];
    assert "dataStoreID" !in c1;
    var c2: Container := map["type" := "folder", "accountID" := id, "folderName" := name];
    assert "dataStoreID" !in c2;
  }
}
