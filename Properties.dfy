/** What the resolvers guarantee together over the declared data: every
    stored entity is found by its own id, `Book.author` and `Author.books` are
    inverse to each other, and the authors' book lists partition the books. */
module Properties {

  import opened Wrappers
  import opened ArrayOps
  import opened DataStore
  import opened Resolvers

  /** With unique author ids, an author is determined by its id. */
  lemma AuthorIdentifiedById(a: Author, a': Author)
    requires a in Authors && a' in Authors && a.id == a'.id
    ensures a == a'
  {
    StoreConsistent();
    var i :| 0 <= i < |Authors| && Authors[i] == a;
    var j :| 0 <= j < |Authors| && Authors[j] == a';
  }

  /** With unique book ids, a book is determined by its id. */
  lemma BookIdentifiedById(b: Book, b': Book)
    requires b in Books && b' in Books && b.id == b'.id
    ensures b == b'
  {
    StoreConsistent();
    var i :| 0 <= i < |Books| && Books[i] == b;
    var j :| 0 <= j < |Books| && Books[j] == b';
  }

  /** `book(id)` on a stored book's id returns exactly that book. */
  lemma QueryBookFindsStored(b: Book)
    requires b in Books
    ensures QueryBook(Some(b.id)) == Some(b)
  {
    var r := QueryBook(Some(b.id));
    var i :| 0 <= i < |Books| && Books[i] == b;
    assert r.Some?;
    BookIdentifiedById(r.value, b);
  }

  /** `author(id)` on a stored author's id returns exactly that author. */
  lemma QueryAuthorFindsStored(a: Author)
    requires a in Authors
    ensures QueryAuthor(Some(a.id)) == Some(a)
  {
    var r := QueryAuthor(Some(a.id));
    var i :| 0 <= i < |Authors| && Authors[i] == a;
    assert r.Some?;
    AuthorIdentifiedById(r.value, a);
  }

  /** `Book.author` is never absent for a stored book. */
  lemma BookAuthorOfStoredBook(b: Book)
    requires b in Books
    ensures BookAuthor(b).Some? && BookAuthor(b).value in Authors
  {
    StoreConsistent();
    assert exists a :: a in Authors && a.id == b.authorId;
  }

  /** For stored `a` and `b`: `b` is among `a.books` exactly when `b.author` is `a`. */
  lemma InverseConsistency(a: Author, b: Book)
    requires a in Authors && b in Books
    ensures b in AuthorBooks(a) <==> BookAuthor(b) == Some(a)
  {
    BookAuthorOfStoredBook(b);
    if b.authorId == a.id {
      AuthorIdentifiedById(BookAuthor(b).value, a);
    }
  }

  /** Every stored book is listed by exactly one stored author, and listed once. */
  lemma AuthorBooksPartition(b: Book)
    requires b in Books
    ensures exists a :: a in Authors && b in AuthorBooks(a)
    ensures forall a, a' :: a in Authors && a' in Authors && b in AuthorBooks(a) && b in AuthorBooks(a') ==> a == a'
    ensures forall a :: a in Authors ==> multiset(AuthorBooks(a))[b] == if b.authorId == a.id then 1 else 0
  {
    BookAuthorOfStoredBook(b);
    var owner := BookAuthor(b).value;
    InverseConsistency(owner, b);
    forall a, a' | a in Authors && a' in Authors && b in AuthorBooks(a) && b in AuthorBooks(a')
      ensures a == a'
    {
      AuthorIdentifiedById(a, a');
    }
    BookStoredOnce(b);
    forall a | a in Authors
      ensures multiset(AuthorBooks(a))[b] == if b.authorId == a.id then 1 else 0
    {
      AuthorBooksCounts(a);
    }
  }

  /** With unique book ids, each stored book occurs once in the store. */
  lemma BookStoredOnce(b: Book)
    requires b in Books
    ensures multiset(Books)[b] == 1
  {
    StoreConsistent();
    var i :| 0 <= i < |Books| && Books[i] == b;
    OccursOnce(Books, i);
  }

  /** An element that no other position holds occurs once. */
  lemma OccursOnce<T>(s: seq<T>, i: nat)
    requires i < |s|
    requires forall j :: 0 <= j < |s| && s[j] == s[i] ==> j == i
    ensures multiset(s)[s[i]] == 1
  {
    assert s == s[..i] + [s[i]] + s[i + 1..];
    assert s[i] !in s[..i] && s[i] !in s[i + 1..] by {
      assert forall j :: 0 <= j < i ==> s[..i][j] == s[j];
      assert forall j :: i < j < |s| ==> s[j] == s[i + 1..][j - i - 1];
    }
  }
}
