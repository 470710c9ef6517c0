/**
 * `MarkStatusCommand`: an undoable command that marks articles read or
 * unread, starred or unstarred. It keeps only the articles whose flag would
 * change, refuses to exist when none is left, and hands its completion
 * handler on the first time it marks.
 */
module MarkStatusCommandModel {
  import opened Wrappers
  import opened ArticleStatusModel
  import opened ArticleModel
  import opened ArticleUtilities
  import opened ArticleArrayModel

  /** What the command has asked its undo manager to remember, in order. */
  datatype Registration = RegisteredUndo | RegisteredRedo

  /** The strings of `actionName`. */
  const MarkReadActionName := "Mark Read"
  const MarkUnreadActionName := "Mark Unread"
  const MarkStarredActionName := "Mark Starred"
  const MarkUnstarredActionName := "Mark Unstarred"

  function ActionName(statusKey: Key, flag: bool): string {
    match statusKey
    case Read => if flag then MarkReadActionName else MarkUnreadActionName
    case Starred => if flag then MarkStarredActionName else MarkUnstarredActionName
  }

  /** Each key and flag has its own action name. */
  lemma ActionNamesDistinct(k1: Key, f1: bool, k2: Key, f2: bool)
    ensures ActionName(k1, f1) == ActionName(k2, f2) <==> k1 == k2 && f1 == f2
  {
  }

  /** The test of `filteredArticles`: the flag would change, and an article to be marked unread can be. */
  predicate ToMark(a: Article, statusKey: Key, flag: bool)
    reads a.status
  {
    a.status.BoolStatus(statusKey) != flag
    && (statusKey != Read || !a.status.read || IsAvailableToMarkUnread(a))
  }

  /** The guard on marking unread always passes: an article is to be marked exactly when its flag differs. */
  lemma ToMarkIff(a: Article, statusKey: Key, flag: bool)
    ensures ToMark(a, statusKey, flag) <==> a.status.BoolStatus(statusKey) != flag
  {
  }

  /** `filteredArticles(_:_:_:)`: the articles to mark, in their order. */
  function FilteredArticles(s: seq<Article>, statusKey: Key, flag: bool): (r: seq<Article>)
    reads StatusesIn(s)
    ensures |r| <= |s|
    ensures forall x :: x in r ==> x in s && ToMark(x, statusKey, flag)
    ensures forall k :: 0 <= k < |s| && ToMark(s[k], statusKey, flag) ==> s[k] in r
  {
    if |s| == 0 then []
    else
      var rest := FilteredArticles(s[1..], statusKey, flag);
      assert forall k :: 1 <= k < |s| ==> s[k] == s[1..][k - 1];
      if ToMark(s[0], statusKey, flag) then [s[0]] + rest else rest
  }

  class MarkStatusCommand {
    const undoActionName: string
    const redoActionName: string
    const articles: set<Article>
    const flag: bool
    const statusKey: Key
    /** Whether a completion handler is still held. */
    var completion: bool
    /** How many times the handler has been called. */
    var completionCalls: nat
    var registrations: seq<Registration>

    constructor (articles: set<Article>, statusKey: Key, flag: bool, completion: bool)
      ensures this.articles == articles && this.statusKey == statusKey && this.flag == flag
      ensures this.completion == completion && completionCalls == 0 && registrations == []
      ensures undoActionName == ActionName(statusKey, flag) && redoActionName == undoActionName
    {
      this.articles := articles;
      this.flag := flag;
      this.statusKey := statusKey;
      this.completion := completion;
      completionCalls := 0;
      registrations := [];
      var actionName := ActionName(statusKey, flag);
      undoActionName := actionName;
      redoActionName := actionName;
    }

    /** `mark(_:_:)`: marks the articles, and calls and drops the completion handler if one is held. */
    method Mark(key: Key, value: bool)
      modifies StatusesOf(articles), this
      ensures forall a :: a in articles ==> a.status.BoolStatus(key) == value
      ensures forall st :: st in StatusesOf(articles) ==> st.BoolStatus(Other(key)) == old(st.BoolStatus(Other(key)))
      ensures !completion && completionCalls == old(completionCalls) + (if old(completion) then 1 else 0)
      ensures registrations == old(registrations)
    {
      MarkArticles(articles, key, value);
      if completion {
        completionCalls := completionCalls + 1;
      }
      completion := false;
    }

    /** `perform()`: marks with the flag, then registers the undo. */
    method Perform()
      modifies StatusesOf(articles), this
      ensures forall a :: a in articles ==> a.status.BoolStatus(statusKey) == flag
      ensures forall st :: st in StatusesOf(articles) ==> st.BoolStatus(Other(statusKey)) == old(st.BoolStatus(Other(statusKey)))
      ensures !completion && completionCalls == old(completionCalls) + (if old(completion) then 1 else 0)
      ensures registrations == old(registrations) + [RegisteredUndo]
    {
      Mark(statusKey, flag);
      registrations := registrations + [RegisteredUndo];
    }

    /** `undo()`: marks with the opposite of the flag, then registers the redo. */
    method Undo()
      modifies StatusesOf(articles), this
      ensures forall a :: a in articles ==> a.status.BoolStatus(statusKey) == !flag
      ensures forall st :: st in StatusesOf(articles) ==> st.BoolStatus(Other(statusKey)) == old(st.BoolStatus(Other(statusKey)))
      ensures !completion && completionCalls == old(completionCalls) + (if old(completion) then 1 else 0)
      ensures registrations == old(registrations) + [RegisteredRedo]
    {
      Mark(statusKey, !flag);
      registrations := registrations + [RegisteredRedo];
    }
  }

  /**
   * The failable `init`: nil, after calling the completion handler, when no
   * article needs marking; otherwise a command over the set of the articles
   * to mark, each of which holds the opposite of the flag, so that undoing
   * restores it. The second result counts the handler's calls.
   */
  method NewMarkStatusCommand(initialArticles: seq<Article>, statusKey: Key, flag: bool, completion: bool)
    returns (cmd: Option<MarkStatusCommand>, completionCalls: nat)
    ensures cmd.None? <==> |old(FilteredArticles(initialArticles, statusKey, flag))| == 0
    ensures cmd.None? ==> completionCalls == (if completion then 1 else 0)
    ensures cmd.Some? ==> fresh(cmd.value) && completionCalls == 0
    ensures cmd.Some? ==>
      var c := cmd.value;
      (forall x :: x in c.articles <==> x in old(FilteredArticles(initialArticles, statusKey, flag)))
      && c.statusKey == statusKey && c.flag == flag && c.completion == completion
      && c.completionCalls == 0 && c.registrations == []
      && c.undoActionName == ActionName(statusKey, flag) && c.redoActionName == c.undoActionName
    ensures cmd.Some? ==> forall x :: x in cmd.value.articles ==> x.status.BoolStatus(statusKey) == !flag
  {
    var articlesToMark := FilteredArticles(initialArticles, statusKey, flag);
    if |articlesToMark| == 0 {
      completionCalls := if completion then 1 else 0;
      return None, completionCalls;
    }
    var toMark := set x | x in articlesToMark;
    var c := new MarkStatusCommand(toMark, statusKey, flag, completion);
    return Some(c), 0;
  }

  /** The convenience `init(initialArticles:markingRead:…)`. */
  method NewMarkingRead(initialArticles: seq<Article>, markingRead: bool, completion: bool)
    returns (cmd: Option<MarkStatusCommand>, completionCalls: nat)
    ensures cmd.None? <==> old(forall k :: 0 <= k < |initialArticles| ==> initialArticles[k].status.read == markingRead)
    ensures cmd.Some? ==> fresh(cmd.value) && cmd.value.statusKey == Read && cmd.value.flag == markingRead
  {
    NothingToMark(initialArticles, Read, markingRead);
    cmd, completionCalls := NewMarkStatusCommand(initialArticles, Read, markingRead, completion);
  }

  /** The convenience `init(initialArticles:markingStarred:…)`. */
  method NewMarkingStarred(initialArticles: seq<Article>, markingStarred: bool, completion: bool)
    returns (cmd: Option<MarkStatusCommand>, completionCalls: nat)
    ensures cmd.None? <==> old(forall k :: 0 <= k < |initialArticles| ==> initialArticles[k].status.starred == markingStarred)
    ensures cmd.Some? ==> fresh(cmd.value) && cmd.value.statusKey == Starred && cmd.value.flag == markingStarred
  {
    NothingToMark(initialArticles, Starred, markingStarred);
    cmd, completionCalls := NewMarkStatusCommand(initialArticles, Starred, markingStarred, completion);
  }

  /** Nothing is left to mark exactly when every article already holds the flag. */
  lemma NothingToMark(s: seq<Article>, statusKey: Key, flag: bool)
    ensures |FilteredArticles(s, statusKey, flag)| == 0 <==> forall k :: 0 <= k < |s| ==> s[k].status.BoolStatus(statusKey) == flag
  {
    var r := FilteredArticles(s, statusKey, flag);
    if |r| > 0 {
      assert r[0] in r;
      var k :| 0 <= k < |s| && s[k] == r[0];
      assert s[k].status.BoolStatus(statusKey) != flag;
    }
  }

  /** Performing and then undoing puts every flag back, hands the completion handler on once, and registers undo then redo. */
  method PerformThenUndo(c: MarkStatusCommand)
    modifies StatusesOf(c.articles), c
    requires forall x :: x in c.articles ==> x.status.BoolStatus(c.statusKey) == !c.flag
    ensures forall x :: x in c.articles ==> x.status.BoolStatus(c.statusKey) == old(x.status.BoolStatus(c.statusKey))
    ensures forall st :: st in StatusesOf(c.articles) ==> st.BoolStatus(Other(c.statusKey)) == old(st.BoolStatus(Other(c.statusKey)))
    ensures c.completionCalls == old(c.completionCalls) + (if old(c.completion) then 1 else 0)
    ensures c.registrations == old(c.registrations) + [RegisteredUndo, RegisteredRedo]
  {
    c.Perform();
    c.Undo();
  }
}
