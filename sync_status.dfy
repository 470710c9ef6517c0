/**
 * `SyncStatus`: a pending change of one flag of one article, queued for the
 * sync service. Two statuses are the same entry when they name the same
 * article and key, whatever the flag.
 */
module SyncStatusModel {
  import opened Wrappers
  import ArticleStatusModel

  /** `SyncStatus.Key`. */
  datatype Key = Read | Starred | Deleted | New

  function RawValue(k: Key): string {
    match k
    case Read => "read"
    case Starred => "starred"
    case Deleted => "deleted"
    case New => "new"
  }

  /** `Key.init(_: ArticleStatus.Key)`. */
  function FromStatusKey(k: ArticleStatusModel.Key): (r: Key)
    ensures RawValue(r) == ArticleStatusModel.RawValue(k)
    ensures r != Deleted && r != New
  {
    match k
    case Read => Read
    case Starred => Starred
  }

  /** The raw values tell the keys apart. */
  lemma RawValuesDistinct(a: Key, b: Key)
    ensures RawValue(a) == RawValue(b) <==> a == b
  {
    if a != b {
      var ra, rb := RawValue(a), RawValue(b);
      if |ra| == |rb| {
        assert ra[0] != rb[0];
      }
    }
  }

  datatype SyncStatus = SyncStatus(articleID: string, key: Key, flag: bool, selected: bool)

  /** `init(articleID:key:flag:selected:)`, with `selected` defaulting to false. */
  function MakeSyncStatus(articleID: string, key: Key, flag: bool): (r: SyncStatus)
    ensures r.articleID == articleID && r.key == key && r.flag == flag && !r.selected
  {
    SyncStatus(articleID, key, flag, false)
  }

  /** `==` and the hash: the article's id and the key only. */
  predicate SameEntry(a: SyncStatus, b: SyncStatus) {
    a.articleID == b.articleID && a.key == b.key
  }

  /** A set of statuses as `Set<SyncStatus>` keeps it: at most one status per article and key. */
  predicate IsStatusSet(s: set<SyncStatus>) {
    forall a, b :: a in s && b in s && SameEntry(a, b) ==> a == b
  }

  /** `Set.insert`: a status equal to one already there leaves the set as it is. */
  function Insert(s: set<SyncStatus>, x: SyncStatus): (r: set<SyncStatus>)
    requires IsStatusSet(s)
    ensures IsStatusSet(r)
    ensures x in r || exists y :: y in s && SameEntry(y, x)
    ensures (exists y :: y in s && SameEntry(y, x)) ==> r == s
    ensures (forall y :: y in s ==> !SameEntry(y, x)) ==> r == s + {x}
  {
    if exists y :: y in s && SameEntry(y, x) then s else s + {x}
  }

  /** A value of the store's dictionary. */
  datatype Value = Str(s: string) | Flag(b: bool)

  /** `databaseDictionary()`: four entries, the key stored as its raw value. */
  function DatabaseDictionary(x: SyncStatus): (d: map<string, Value>)
    ensures d.Keys == {"articleID", "key", "flag", "selected"}
    ensures d["articleID"] == Str(x.articleID) && d["key"] == Str(RawValue(x.key))
    ensures d["flag"] == Flag(x.flag) && d["selected"] == Flag(x.selected)
  {
    map["articleID" := Str(x.articleID), "key" := Str(RawValue(x.key)), "flag" := Flag(x.flag), "selected" := Flag(x.selected)]
  }

  /** Reading the four entries back: the inverse the dictionary's layout allows. */
  function FromDictionary(d: map<string, Value>): (r: Option<SyncStatus>)
  {
    if "articleID" in d && d["articleID"].Str? && "key" in d && d["key"].Str? && KeyOf(d["key"].s).Some?
       && "flag" in d && d["flag"].Flag? && "selected" in d && d["selected"].Flag?
    then Some(SyncStatus(d["articleID"].s, KeyOf(d["key"].s).value, d["flag"].b, d["selected"].b))
    else None
  }

  function KeyOf(raw: string): (r: Option<Key>)
    ensures r.Some? ==> RawValue(r.value) == raw
  {
    if raw == "read" then Some(Read)
    else if raw == "starred" then Some(Starred)
    else if raw == "deleted" then Some(Deleted)
    else if raw == "new" then Some(New)
    else None
  }

  /** The dictionary loses nothing: reading it back gives the status. */
  lemma DictionaryRoundTrip(x: SyncStatus)
    ensures FromDictionary(DatabaseDictionary(x)) == Some(x)
  {
  }
}
