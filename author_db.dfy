/**
 * `Author` as the articles database stores it: made from a parser's author
 * with no id of its own, and written out as a dictionary holding the id and
 * each field that is present. The memberwise failable initialiser of
 * `Author` is not part of this model: it is a parameter here.
 */
module AuthorModel {
  import opened Wrappers

  datatype Author = Author(authorID: string, name: Option<string>, url: Option<string>, avatarURL: Option<string>, emailAddress: Option<string>)

  datatype ParsedAuthor = ParsedAuthor(name: Option<string>, url: Option<string>, avatarURL: Option<string>, emailAddress: Option<string>)

  /** `Author.init?(authorID:name:url:avatarURL:emailAddress:)`. */
  type AuthorInit = (Option<string>, Option<string>, Option<string>, Option<string>, Option<string>) -> Option<Author>

  /** An initialiser that, when it succeeds, keeps the fields it was given. */
  ghost predicate CopiesFields(make: AuthorInit) {
    forall id, name, url, avatarURL, emailAddress ::
      make(id, name, url, avatarURL, emailAddress).Some? ==>
      var a := make(id, name, url, avatarURL, emailAddress).value;
      a.name == name && a.url == url && a.avatarURL == avatarURL && a.emailAddress == emailAddress
  }

  /** `init?(parsedAuthor:)`: no id, and the parser's four fields. */
  function FromParsedAuthor(p: ParsedAuthor, make: AuthorInit): Option<Author> {
    make(None, p.name, p.url, p.avatarURL, p.emailAddress)
  }

  /** An author made from a parsed one carries the parsed fields. */
  lemma FromParsedAuthorCopies(p: ParsedAuthor, make: AuthorInit)
    requires CopiesFields(make)
    ensures FromParsedAuthor(p, make).Some? ==>
      var a := FromParsedAuthor(p, make).value;
      a.name == p.name && a.url == p.url && a.avatarURL == p.avatarURL && a.emailAddress == p.emailAddress
  {
  }

  /** `authorsWithParsedAuthors`: nil for nil, and nil rather than an empty set. */
  function AuthorsWithParsedAuthors(parsed: Option<set<ParsedAuthor>>, make: AuthorInit): (r: Option<set<Author>>)
    ensures parsed.None? ==> r.None?
    ensures r.Some? ==> r.value != {}
    ensures r.Some? ==> forall a :: a in r.value <==> exists p :: p in parsed.value && FromParsedAuthor(p, make) == Some(a)
  {
    match parsed
    case None => None
    case Some(ps) =>
      var authors := set p | p in ps && FromParsedAuthor(p, make).Some? :: FromParsedAuthor(p, make).value;
      if authors == {} then None else Some(authors)
  }

  /** With some parsed authors, the result is nil exactly when none of them converts. */
  lemma NoAuthorsIsNil(ps: set<ParsedAuthor>, make: AuthorInit)
    ensures AuthorsWithParsedAuthors(Some(ps), make).None? <==> forall p :: p in ps ==> FromParsedAuthor(p, make).None?
  {
    if exists p :: p in ps && FromParsedAuthor(p, make).Some? {
      var p :| p in ps && FromParsedAuthor(p, make).Some?;
      var authors := set q | q in ps && FromParsedAuthor(q, make).Some? :: FromParsedAuthor(q, make).value;
      assert FromParsedAuthor(p, make).value in authors;
    }
  }

  /** `DatabaseKey`'s author columns. */
  datatype Column = AuthorIDColumn | NameColumn | UrlColumn | AvatarURLColumn | EmailAddressColumn

  /** `databaseDictionary()`: the id, then each field that is present. */
  method DatabaseDictionary(a: Author) returns (d: map<Column, string>)
    ensures AuthorIDColumn in d && d[AuthorIDColumn] == a.authorID
    ensures NameColumn in d <==> a.name.Some?
    ensures UrlColumn in d <==> a.url.Some?
    ensures AvatarURLColumn in d <==> a.avatarURL.Some?
    ensures EmailAddressColumn in d <==> a.emailAddress.Some?
    ensures a.name.Some? ==> d[NameColumn] == a.name.value
    ensures a.url.Some? ==> d[UrlColumn] == a.url.value
    ensures a.avatarURL.Some? ==> d[AvatarURLColumn] == a.avatarURL.value
    ensures a.emailAddress.Some? ==> d[EmailAddressColumn] == a.emailAddress.value
  {
    d := map[AuthorIDColumn := a.authorID];
    if a.name.Some? {
      d := d[NameColumn := a.name.value];
    }
    if a.url.Some? {
      d := d[UrlColumn := a.url.value];
    }
    if a.avatarURL.Some? {
      d := d[AvatarURLColumn := a.avatarURL.value];
    }
    if a.emailAddress.Some? {
      d := d[EmailAddressColumn := a.emailAddress.value];
    }
  }
}
