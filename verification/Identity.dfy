/** Package identities. The text `author/name` splits uniquely because neither half
    contains a slash; it is kept here as the pair. Rows older than signed packages
    have no author and their identity is the short name alone. */
module Identity {
  import opened Wrappers

  datatype ReleaseId = ReleaseId(author: string, name: string)

  /** One exact release, as a manifest names a dependency. */
  datatype Request = Request(id: ReleaseId, version: string)

  datatype PackageId = PackageId(author: Option<string>, name: string)

  const STD_AUTHOR := "std.dhttp.net"
  const DEV_AUTHOR := "dev.genmeta.tech.dhttp.net"

  predicate IsStandardAuthor(author: string) {
    author == STD_AUTHOR || author == DEV_AUTHOR
  }

  predicate IsStandard(id: PackageId) {
    id.author.Some? && IsStandardAuthor(id.author.value)
  }

  predicate NameChar(c: char) {
    'a' <= c <= 'z' || '0' <= c <= '9' || c == '-'
  }

  /** A short name: at most 63 of [a-z0-9-], starting with a letter. */
  predicate ValidName(name: string) {
    0 < |name| <= 63 && 'a' <= name[0] <= 'z' && forall i :: 0 <= i < |name| ==> NameChar(name[i])
  }
}
