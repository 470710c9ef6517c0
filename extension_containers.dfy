/**
 * `ExtensionContainers`: the accounts and folders the main app hands to its
 * extensions, the flattened list of them a picker shows, the lookups by
 * name, and the keyed coding of an `ExtensionAccount`.
 */
module ExtensionContainersModel {
  import opened Wrappers
  import ContainerId

  /** The account type, coded by its raw value. */
  datatype AccountType = OnMyMac | CloudKit

  function RawValue(t: AccountType): (r: int)
    ensures r == 1 || r == 2
  {
    match t
    case OnMyMac => 1
    case CloudKit => 2
  }

  /** `AccountType(rawValue:)`: nil for a raw value no case has. */
  function AccountTypeFrom(raw: int): (r: Option<AccountType>)
    ensures r.Some? <==> raw == 1 || raw == 2
    ensures r.Some? ==> RawValue(r.value) == raw
  {
    if raw == 1 then Some(OnMyMac) else if raw == 2 then Some(CloudKit) else None
  }

  lemma AccountTypeRawValueRoundTrip(t: AccountType)
    ensures AccountTypeFrom(RawValue(t)) == Some(t)
  {
  }

  datatype ExtensionFolder = ExtensionFolder(
    accountName: string,
    accountID: string,
    name: string,
    containerID: Option<ContainerId.ContainerIdentifier>)

  datatype ExtensionAccount = ExtensionAccount(
    name: string,
    accountID: string,
    accountType: AccountType,
    disallowFeedInRootFolder: bool,
    containerID: Option<ContainerId.ContainerIdentifier>,
    folders: seq<ExtensionFolder>)

  /** Something conforming to `ExtensionContainer`: an account or a folder. */
  datatype ExtensionContainer = AccountContainer(account: ExtensionAccount) | FolderContainer(folder: ExtensionFolder) {
    function Name(): string {
      match this
      case AccountContainer(a) => a.name
      case FolderContainer(f) => f.name
    }

    function AccountID(): string {
      match this
      case AccountContainer(a) => a.accountID
      case FolderContainer(f) => f.accountID
    }
  }

  datatype ExtensionContainers = ExtensionContainers(accounts: seq<ExtensionAccount>)

  /** An account's folders as containers, in order. */
  function FolderContainers(folders: seq<ExtensionFolder>): (r: seq<ExtensionContainer>)
    ensures |r| == |folders| && forall i :: 0 <= i < |r| ==> r[i] == FolderContainer(folders[i])
  {
    seq(|folders|, i requires 0 <= i < |folders| => FolderContainer(folders[i]))
  }

  /** `flattened`: the `reduce` that appends each account and then its folders. */
  function Flattened(accounts: seq<ExtensionAccount>): seq<ExtensionContainer> {
    if accounts == [] then []
    else
      var last := accounts[|accounts| - 1];
      Flattened(accounts[..|accounts| - 1]) + [AccountContainer(last)] + FolderContainers(last.folders)
  }

  /** The number of folders over all accounts. */
  function FolderCount(accounts: seq<ExtensionAccount>): nat {
    if accounts == [] then 0 else FolderCount(accounts[..|accounts| - 1]) + |accounts[|accounts| - 1].folders|
  }

  /** Flattening two runs of accounts is flattening each, one after the other. */
  lemma {:induction false} FlattenedAppend(a: seq<ExtensionAccount>, b: seq<ExtensionAccount>)
    ensures Flattened(a + b) == Flattened(a) + Flattened(b)
    ensures FolderCount(a + b) == FolderCount(a) + FolderCount(b)
    decreases |b|
  {
    if b == [] {
      assert a + b == a;
    } else {
      var b' := b[..|b| - 1];
      assert (a + b)[..|a + b| - 1] == a + b';
      assert (a + b)[|a + b| - 1] == b[|b| - 1];
      FlattenedAppend(a, b');
    }
  }

  /** Each account comes first, followed by its folders in their order. */
  lemma FlattenedCons(account: ExtensionAccount, rest: seq<ExtensionAccount>)
    ensures Flattened([account] + rest) == [AccountContainer(account)] + FolderContainers(account.folders) + Flattened(rest)
  {
    FlattenedAppend([account], rest);
    assert [account][..0] == [];
  }

  /** The flattened list has one entry per account and one per folder. */
  lemma {:induction false} FlattenedLength(accounts: seq<ExtensionAccount>)
    ensures |Flattened(accounts)| == |accounts| + FolderCount(accounts)
  {
    if accounts != [] {
      FlattenedLength(accounts[..|accounts| - 1]);
    }
  }

  /** The container is the account itself or one of its folders. */
  predicate OfAccount(c: ExtensionContainer, account: ExtensionAccount) {
    c == AccountContainer(account) || (c.FolderContainer? && c.folder in account.folders)
  }

  /** The folder entries of an account are exactly its folders. */
  lemma FolderContainersHas(folders: seq<ExtensionFolder>, c: ExtensionContainer)
    ensures c in FolderContainers(folders) <==> c.FolderContainer? && c.folder in folders
  {
    if c.FolderContainer? && c.folder in folders {
      var k :| 0 <= k < |folders| && folders[k] == c.folder;
      assert FolderContainers(folders)[k] == c;
    }
  }

  /** The last account's entries come after those of the accounts before it. */
  lemma FlattenedLastHas(accounts: seq<ExtensionAccount>, c: ExtensionContainer)
    requires accounts != []
    ensures c in Flattened(accounts) <==>
      c in Flattened(accounts[..|accounts| - 1]) || OfAccount(c, accounts[|accounts| - 1])
  {
    FolderContainersHas(accounts[|accounts| - 1].folders, c);
  }

  /** Every entry of the flattened list is one of the accounts or one of their folders. */
  lemma {:induction false} FlattenedOnlyAccounts(accounts: seq<ExtensionAccount>, c: ExtensionContainer)
    requires c in Flattened(accounts)
    ensures exists i :: 0 <= i < |accounts| && OfAccount(c, accounts[i])
  {
    var n := |accounts| - 1;
    var p := accounts[..n];
    FlattenedLastHas(accounts, c);
    if c in Flattened(p) {
      FlattenedOnlyAccounts(p, c);
      var i :| 0 <= i < |p| && OfAccount(c, p[i]);
      assert accounts[i] == p[i];
    } else {
      assert OfAccount(c, accounts[n]);
    }
  }

  /** Every account and every folder of an account is an entry of the flattened list. */
  lemma {:induction false} FlattenedHasAccounts(accounts: seq<ExtensionAccount>, c: ExtensionContainer, i: nat)
    requires i < |accounts| && OfAccount(c, accounts[i])
    ensures c in Flattened(accounts)
  {
    var n := |accounts| - 1;
    var p := accounts[..n];
    FlattenedLastHas(accounts, c);
    if i < n {
      assert p[i] == accounts[i];
      FlattenedHasAccounts(p, c, i);
    }
  }

  /** A container is in the flattened list exactly when it is one of the accounts or one of their folders. */
  lemma FlattenedMembers(accounts: seq<ExtensionAccount>, c: ExtensionContainer)
    ensures c in Flattened(accounts) <==> exists i :: 0 <= i < |accounts| && OfAccount(c, accounts[i])
  {
    if c in Flattened(accounts) {
      FlattenedOnlyAccounts(accounts, c);
    }
    if exists i :: 0 <= i < |accounts| && OfAccount(c, accounts[i]) {
      var i :| 0 <= i < |accounts| && OfAccount(c, accounts[i]);
      FlattenedHasAccounts(accounts, c, i);
    }
  }

  /** `findAccount(forName:)`: the first account with the name. */
  function FindAccount(accounts: seq<ExtensionAccount>, name: string): (r: Option<ExtensionAccount>)
    ensures r.Some? ==> exists i :: 0 <= i < |accounts| && accounts[i] == r.value && (forall j :: 0 <= j < i ==> accounts[j].name != name)
    ensures r.Some? ==> r.value.name == name
    ensures r.None? <==> forall i :: 0 <= i < |accounts| ==> accounts[i].name != name
  {
    FirstWhere(accounts, (x: ExtensionAccount) => x.name == name)
  }

  /** `findFolder(forName:)`: the first folder of the account with the name. */
  function FindFolder(folders: seq<ExtensionFolder>, name: string): (r: Option<ExtensionFolder>)
    ensures r.Some? ==> exists i :: 0 <= i < |folders| && folders[i] == r.value && (forall j :: 0 <= j < i ==> folders[j].name != name)
    ensures r.Some? ==> r.value.name == name
    ensures r.None? <==> forall i :: 0 <= i < |folders| ==> folders[i].name != name
  {
    FirstWhere(folders, (x: ExtensionFolder) => x.name == name)
  }

  // ---------------------------------------------------------------- coding

  /** A value in a keyed coding container. Folders use their synthesized coding, taken here as whole values. */
  datatype Coded =
    | Text(s: string)
    | Flag(b: bool)
    | Number(n: int)
    | Identifier(c: ContainerId.Container)
    | FolderList(folders: seq<ExtensionFolder>)

  type KeyedContainer = map<string, Coded>

  datatype DecodingError =
    | KeyNotFound(key: string)
    | TypeMismatch(key: string)
    /** A raw value no `AccountType` case has. */
    | DataCorrupted(key: string)
    /** The container identifier's own decoder threw. */
    | Nested(error: ContainerId.DecodingError)

  /** `encode(to:)`: every field under its coding key, and the container id only when there is one. */
  function Encode(a: ExtensionAccount): (r: KeyedContainer)
    ensures "containerID" in r <==> a.containerID.Some?
  {
    var c := map[
      "name" := Text(a.name),
      "accountID" := Text(a.accountID),
      "type" := Number(RawValue(a.accountType)),
      "disallowFeedInRootFolder" := Flag(a.disallowFeedInRootFolder),
      "folders" := FolderList(a.folders)];
    if a.containerID.Some? then c["containerID" := Identifier(ContainerId.Encode(a.containerID.value))] else c
  }

  function DecodeString(c: KeyedContainer, key: string): Result<string, DecodingError> {
    if key !in c then Failure(KeyNotFound(key))
    else if !c[key].Text? then Failure(TypeMismatch(key))
    else Success(c[key].s)
  }

  function DecodeBool(c: KeyedContainer, key: string): Result<bool, DecodingError> {
    if key !in c then Failure(KeyNotFound(key))
    else if !c[key].Flag? then Failure(TypeMismatch(key))
    else Success(c[key].b)
  }

  function DecodeAccountType(c: KeyedContainer, key: string): Result<AccountType, DecodingError> {
    if key !in c then Failure(KeyNotFound(key))
    else if !c[key].Number? then Failure(TypeMismatch(key))
    else match AccountTypeFrom(c[key].n)
      case None => Failure(DataCorrupted(key))
      case Some(t) => Success(t)
  }

  function DecodeFolders(c: KeyedContainer, key: string): Result<seq<ExtensionFolder>, DecodingError> {
    if key !in c then Failure(KeyNotFound(key))
    else if !c[key].FolderList? then Failure(TypeMismatch(key))
    else Success(c[key].folders)
  }

  /** `decodeIfPresent`: nil when the key is absent; a present value must decode. */
  function DecodeContainerIDIfPresent(c: KeyedContainer, key: string): (r: Result<Option<ContainerId.ContainerIdentifier>, DecodingError>)
    ensures key !in c ==> r == Success(None)
  {
    if key !in c then Success(None)
    else if !c[key].Identifier? then Failure(TypeMismatch(key))
    else match ContainerId.Decode(c[key].c)
      case Failure(e) => Failure(Nested(e))
      case Success(x) => Success(Some(x))
  }

  /** `init(from:)`: the fields in declaration order, the first failure thrown. */
  function Decode(c: KeyedContainer): (r: Result<ExtensionAccount, DecodingError>)
    ensures "name" !in c ==> r == Failure(KeyNotFound("name"))
    ensures r.Success? ==> "name" in c && "accountID" in c && "type" in c && "disallowFeedInRootFolder" in c && "folders" in c
  {
    match DecodeString(c, "name")
    case Failure(e) => Failure(e)
    case Success(name) =>
      match DecodeString(c, "accountID")
      case Failure(e) => Failure(e)
      case Success(accountID) =>
        match DecodeAccountType(c, "type")
        case Failure(e) => Failure(e)
        case Success(accountType) =>
          match DecodeBool(c, "disallowFeedInRootFolder")
          case Failure(e) => Failure(e)
          case Success(disallow) =>
            match DecodeContainerIDIfPresent(c, "containerID")
            case Failure(e) => Failure(e)
            case Success(containerID) =>
              match DecodeFolders(c, "folders")
              case Failure(e) => Failure(e)
              case Success(folders) => Success(ExtensionAccount(name, accountID, accountType, disallow, containerID, folders))
  }

  /** Decoding an encoded account gives it back, with or without a container id. */
  lemma DecodeEncode(a: ExtensionAccount)
    ensures Decode(Encode(a)) == Success(a)
  {
    if a.containerID.Some? {
      ContainerId.DecodeEncode(a.containerID.value);
    }
  }

  /** An absent container id decodes as nil; an unknown account type is corrupted data. */
  lemma DecodeOptionalAndCorrupted(a: ExtensionAccount, raw: int)
    requires raw != 1 && raw != 2
    ensures Decode(Encode(a.(containerID := None))) == Success(a.(containerID := None))
    ensures Decode(Encode(a)["type" := Number(raw)]) == Failure(DataCorrupted("type"))
  {
  }
}
