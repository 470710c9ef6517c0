/**
 * `ArticleStatus`: an article's read and starred flags, which change in
 * place and are shared by every holder of the status, with the date the
 * article arrived. Equality compares everything; the hash is the article's id.
 */
module ArticleStatusModel {

  /** `ArticleStatus.Key`. */
  datatype Key = Read | Starred

  function RawValue(k: Key): string {
    match k
    case Read => "read"
    case Starred => "starred"
  }

  /** The two keys have different raw values, so a raw value names one key. */
  lemma RawValuesDistinct(a: Key, b: Key)
    ensures RawValue(a) == RawValue(b) <==> a == b
  {
    if a != b {
      assert RawValue(a)[0] != RawValue(b)[0];
    }
  }

  function Other(k: Key): (r: Key)
    ensures r != k
  {
    if k == Read then Starred else Read
  }

  class ArticleStatus {
    const articleID: string
    /** Seconds since the reference date. */
    const dateArrived: real
    var read: bool
    var starred: bool

    constructor (articleID: string, read: bool, starred: bool, dateArrived: real)
      ensures this.articleID == articleID && this.dateArrived == dateArrived
      ensures this.read == read && this.starred == starred
    {
      this.articleID := articleID;
      this.dateArrived := dateArrived;
      this.read := read;
      this.starred := starred;
    }

    /** The convenience initialiser: not starred. */
    constructor Unstarred(articleID: string, read: bool, dateArrived: real)
      ensures this.articleID == articleID && this.dateArrived == dateArrived
      ensures this.read == read && !this.starred
    {
      this.articleID := articleID;
      this.dateArrived := dateArrived;
      this.read := read;
      this.starred := false;
    }

    /** `boolStatus(forKey:)`. */
    function BoolStatus(key: Key): (r: bool)
      reads this
      ensures key == Read ==> r == read
      ensures key == Starred ==> r == starred
    {
      match key
      case Read => read
      case Starred => starred
    }

    /** `setBoolStatus(_:forKey:)`: the flag for the key takes the value; the other flag is kept. */
    method SetBoolStatus(status: bool, key: Key)
      modifies this
      ensures BoolStatus(key) == status && BoolStatus(Other(key)) == old(BoolStatus(Other(key)))
    {
      match key
      case Read => read := status;
      case Starred => starred := status;
    }
  }

  /** `==`: the same article, arrival date and flags. */
  predicate StatusEquals(a: ArticleStatus, b: ArticleStatus)
    reads a, b
  {
    a.articleID == b.articleID && a.dateArrived == b.dateArrived && a.read == b.read && a.starred == b.starred
  }

  /** `articleIDs()` of a set of statuses. */
  function ArticleIDs(statuses: set<ArticleStatus>): (r: set<string>)
    ensures forall s :: s in statuses ==> s.articleID in r
    ensures forall id :: id in r ==> exists s :: s in statuses && s.articleID == id
  {
    set s | s in statuses :: s.articleID
  }

  /** Equal statuses hash alike, since the hash is the article's id; statuses that differ only in flags are not equal. */
  lemma StatusHashConsistent(a: ArticleStatus, b: ArticleStatus)
    ensures StatusEquals(a, b) ==> a.articleID == b.articleID
    ensures a.read != b.read || a.starred != b.starred ==> !StatusEquals(a, b)
  {
  }
}
