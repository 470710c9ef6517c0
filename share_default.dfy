/**
 * `ShareDefaultContainer`: which account or folder the share extension
 * offers first, from the account id and folder name saved in its defaults,
 * and saving a chosen container back.
 */
module ShareDefaultContainerModel {
  import opened Wrappers
  import opened ExtensionContainersModel

  /** `accounts.first(where: { $0.accountID == accountID })`. */
  function FirstWithAccountID(accounts: seq<ExtensionAccount>, accountID: string): (r: Option<ExtensionAccount>)
    ensures r.Some? ==> exists i :: 0 <= i < |accounts| && accounts[i] == r.value && (forall j :: 0 <= j < i ==> accounts[j].accountID != accountID)
    ensures r.Some? ==> r.value.accountID == accountID
    ensures r.None? <==> forall i :: 0 <= i < |accounts| ==> accounts[i].accountID != accountID
  {
    FirstWhere(accounts, (x: ExtensionAccount) => x.accountID == accountID)
  }

  /** `substituteContainerIfNeeded(account:)`: the account when it takes feeds at its root, else its first folder, if any. */
  function SubstituteContainerIfNeeded(account: ExtensionAccount): (r: Option<ExtensionContainer>)
    ensures !account.disallowFeedInRootFolder ==> r == Some(AccountContainer(account))
    ensures account.disallowFeedInRootFolder && |account.folders| > 0 ==> r == Some(FolderContainer(account.folders[0]))
    ensures account.disallowFeedInRootFolder && |account.folders| == 0 ==> r.None?
  {
    if !account.disallowFeedInRootFolder then Some(AccountContainer(account))
    else if |account.folders| > 0 then Some(FolderContainer(account.folders[0]))
    else None
  }

  /** The substitute is the account or one of its folders. */
  lemma SubstituteIsOfAccount(account: ExtensionAccount)
    ensures var r := SubstituteContainerIfNeeded(account);
      r.Some? ==> r.value == AccountContainer(account) || (r.value.FolderContainer? && r.value.folder in account.folders)
  {
  }

  /** Account ids are unique, each folder carries its account's id, and folder names are unique within an account. */
  predicate WellFormed(accounts: seq<ExtensionAccount>) {
    && (forall i, j :: 0 <= i < j < |accounts| ==> accounts[i].accountID != accounts[j].accountID)
    && (forall i, f :: 0 <= i < |accounts| && f in accounts[i].folders ==> f.accountID == accounts[i].accountID)
    && (forall i, k, l :: 0 <= i < |accounts| && 0 <= k < l < |accounts[i].folders| ==> accounts[i].folders[k].name != accounts[i].folders[l].name)
  }

  /** With unique account ids, looking an account's id up finds that account. */
  lemma FirstWithUniqueAccountID(accounts: seq<ExtensionAccount>, i: nat)
    requires i < |accounts| && forall j, k :: 0 <= j < k < |accounts| ==> accounts[j].accountID != accounts[k].accountID
    ensures FirstWithAccountID(accounts, accounts[i].accountID) == Some(accounts[i])
  {
    var r := FirstWithAccountID(accounts, accounts[i].accountID);
    var i' :| 0 <= i' < |accounts| && accounts[i'] == r.value && (forall j :: 0 <= j < i' ==> accounts[j].accountID != accounts[i].accountID);
    assert i' == i;
  }

  /** With unique folder names, looking a folder's name up finds that folder. */
  lemma FindUniqueFolder(folders: seq<ExtensionFolder>, k: nat)
    requires k < |folders| && forall j, l :: 0 <= j < l < |folders| ==> folders[j].name != folders[l].name
    ensures FindFolder(folders, folders[k].name) == Some(folders[k])
  {
    var r := FindFolder(folders, folders[k].name);
    var k' :| 0 <= k' < |folders| && folders[k'] == r.value && (forall j :: 0 <= j < k' ==> folders[j].name != folders[k].name);
    assert k' == k;
  }

  /** The share extension's saved choice. */
  class ShareAppDefaults {
    var addFeedAccountID: Option<string>
    var addFeedFolderName: Option<string>

    constructor ()
      ensures addFeedAccountID.None? && addFeedFolderName.None?
    {
      addFeedAccountID := None;
      addFeedFolderName := None;
    }

    /**
     * `defaultContainer(containers:)`: the saved folder of the saved
     * account; else that account, substituted if needed; else the first
     * account, substituted if needed; else nothing.
     */
    function DefaultContainer(containers: ExtensionContainers): (r: Option<ExtensionContainer>)
      reads this
      ensures addFeedAccountID.Some? && FirstWithAccountID(containers.accounts, addFeedAccountID.value).Some? ==>
        var account := FirstWithAccountID(containers.accounts, addFeedAccountID.value).value;
        && (addFeedFolderName.Some? && FindFolder(account.folders, addFeedFolderName.value).Some? ==>
              r == Some(FolderContainer(FindFolder(account.folders, addFeedFolderName.value).value)))
        && (!(addFeedFolderName.Some? && FindFolder(account.folders, addFeedFolderName.value).Some?) ==>
              r == SubstituteContainerIfNeeded(account))
      ensures !(addFeedAccountID.Some? && FirstWithAccountID(containers.accounts, addFeedAccountID.value).Some?) ==>
        r == (if |containers.accounts| > 0 then SubstituteContainerIfNeeded(containers.accounts[0]) else None)
    {
      var found := if addFeedAccountID.Some? then FirstWithAccountID(containers.accounts, addFeedAccountID.value) else None;
      if found.Some? then
        var folder := if addFeedFolderName.Some? then FindFolder(found.value.folders, addFeedFolderName.value) else None;
        if folder.Some? then Some(FolderContainer(folder.value)) else SubstituteContainerIfNeeded(found.value)
      else if |containers.accounts| > 0 then
        SubstituteContainerIfNeeded(containers.accounts[0])
      else
        None
    }

    /** Whatever is offered is an entry of the flattened list; with no accounts nothing is offered. */
    lemma DefaultContainerIsListed(containers: ExtensionContainers)
      ensures var r := DefaultContainer(containers);
        r.Some? ==> r.value in Flattened(containers.accounts)
      ensures |containers.accounts| == 0 ==> DefaultContainer(containers).None?
    {
      var r := DefaultContainer(containers);
      if r.Some? {
        var accounts := containers.accounts;
        var found := if addFeedAccountID.Some? then FirstWithAccountID(accounts, addFeedAccountID.value) else None;
        var i: int;
        if found.Some? {
          i :| 0 <= i < |accounts| && accounts[i] == found.value && (forall j :: 0 <= j < i ==> accounts[j].accountID != addFeedAccountID.value);
          var folder := if addFeedFolderName.Some? then FindFolder(found.value.folders, addFeedFolderName.value) else None;
          if folder.Some? {
            var k :| 0 <= k < |found.value.folders| && found.value.folders[k] == folder.value;
          }
        } else {
          i := 0;
        }
        SubstituteIsOfAccount(accounts[i]);
        FlattenedMembers(accounts, r.value);
      }
    }

    /** `saveDefaultContainer(_:)`: the container's account id, and its name when it is a folder. */
    method SaveDefaultContainer(container: ExtensionContainer)
      modifies this
      ensures addFeedAccountID == Some(container.AccountID())
      ensures container.FolderContainer? ==> addFeedFolderName == Some(container.folder.name)
      ensures container.AccountContainer? ==> addFeedFolderName.None?
    {
      addFeedAccountID := Some(container.AccountID());
      if container.FolderContainer? {
        addFeedFolderName := Some(container.folder.name);
      } else {
        addFeedFolderName := None;
      }
    }

    /**
     * What was saved is offered again: a saved folder itself, a saved
     * account as substituted, in well-formed containers.
     */
    lemma SavedContainerIsOfferedAgain(containers: ExtensionContainers, container: ExtensionContainer)
      requires WellFormed(containers.accounts) && container in Flattened(containers.accounts)
      requires addFeedAccountID == Some(container.AccountID())
      requires addFeedFolderName == (if container.FolderContainer? then Some(container.folder.name) else None)
      ensures container.FolderContainer? ==> DefaultContainer(containers) == Some(container)
      ensures container.AccountContainer? ==> DefaultContainer(containers) == SubstituteContainerIfNeeded(container.account)
    {
      var accounts := containers.accounts;
      FlattenedMembers(accounts, container);
      var i :| 0 <= i < |accounts| && OfAccount(container, accounts[i]);
      FirstWithUniqueAccountID(accounts, i);
      if container.FolderContainer? {
        var k :| 0 <= k < |accounts[i].folders| && accounts[i].folders[k] == container.folder;
        FindUniqueFolder(accounts[i].folders, k);
      }
    }
  }
}
