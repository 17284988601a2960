/** The six resolvers of the schema: the root queries `book(id)`, `author(id)`,
    `books` and `authors`, and the cross-reference fields `Book.author` and
    `Author.books`. Each one scans the data store; none can fail. */
module Resolvers {

  import opened Wrappers
  import opened ArrayOps
  import opened DataStore

  /** `Query.book(id)`: the first stored book whose id equals the argument.
      An omitted `id` (read as `undefined`) equals no book's id. */
  function QueryBook(id: Option<int>): (r: Option<Book>)
    ensures id.None? ==> r.None?
    ensures r.None? <==> id.None? || forall i :: 0 <= i < |Books| ==> Books[i].id != id.value
    ensures r.Some? ==> r.value in Books && id == Some(r.value.id)
    ensures r.Some? ==>
              exists i :: 0 <= i < |Books| && Books[i] == r.value &&
                          forall j :: 0 <= j < i ==> Books[j].id != r.value.id
  {
    Find(Books, (b: Book) => Some(b.id) == id)
  }

  /** `Query.author(id)`: the first stored author whose id equals the argument. */
  function QueryAuthor(id: Option<int>): (r: Option<Author>)
    ensures id.None? ==> r.None?
    ensures r.None? <==> id.None? || forall i :: 0 <= i < |Authors| ==> Authors[i].id != id.value
    ensures r.Some? ==> r.value in Authors && id == Some(r.value.id)
    ensures r.Some? ==>
              exists i :: 0 <= i < |Authors| && Authors[i] == r.value &&
                          forall j :: 0 <= j < i ==> Authors[j].id != r.value.id
  {
    Find(Authors, (a: Author) => Some(a.id) == id)
  }

  /** `Query.books`: every stored book, in declaration order. */
  function QueryBooks(): (r: seq<Book>)
    ensures r == Books
    ensures |r| == 8 && forall i :: 0 <= i < |r| ==> r[i].id == i + 1
  {
    Books
  }

  /** `Query.authors`: every stored author, in declaration order. */
  function QueryAuthors(): (r: seq<Author>)
    ensures r == Authors
    ensures |r| == 3 && forall i :: 0 <= i < |r| ==> r[i].id == i + 1
  {
    Authors
  }

  /** `Book.author`: the first stored author whose id is the book's `authorId`;
      absent exactly when the reference dangles. */
  function BookAuthor(book: Book): (r: Option<Author>)
    ensures r.Some? ==> r.value in Authors && r.value.id == book.authorId
    ensures r.None? <==> forall a :: a in Authors ==> a.id != book.authorId
  {
    Find(Authors, (a: Author) => a.id == book.authorId)
  }

  /** `Author.books`: the stored books whose `authorId` is the author's id,
      in declaration order. */
  function AuthorBooks(author: Author): (r: seq<Book>)
    ensures forall b :: b in r <==> b in Books && b.authorId == author.id
    ensures IsSubsequence(r, Books)
  {
    var written := WrittenBy(author);
    FilterIsSubsequence(Books, written);
    Filter(Books, written)
  }

  /** The callback `Author.books` filters with. */
  function WrittenBy(author: Author): Book -> bool {
    (b: Book) => b.authorId == author.id
  }

  /** `Author.books` lists each of the author's books as often as it is stored. */
  lemma AuthorBooksCounts(author: Author)
    ensures forall b :: multiset(AuthorBooks(author))[b] == if b.authorId == author.id then multiset(Books)[b] else 0
  {
    FilterCounts(Books, WrittenBy(author));
  }
}
