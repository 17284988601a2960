/** The in-memory data store: two constant, ordered collections that are
    declared once and never mutated. */
module DataStore {

  datatype Author = Author(id: int, name: string)

  /** `authorId` is a foreign key to `Author.id`. */
  datatype Book = Book(id: int, name: string, authorId: int)

  const Authors: seq<Author> := [
    Author(1, "J. K. Rowling"),
    Author(2, "J. R. R. Tolkien"),
    Author(3, "Brent Weeks")
  ]

  const Books: seq<Book> := [
    Book(1, "Harry Potter and the Chamber of Secrets", 1),
    Book(2, "Harry Potter and the Prisoner of Azkaban", 1),
    Book(3, "Harry Potter and the Goblet of Fire", 1),
    Book(4, "The Fellowship of the Ring", 2),
    Book(5, "The Two Towers", 2),
    Book(6, "The Return of the King", 2),
    Book(7, "The Way of Shadows", 3),
    Book(8, "Beyond the Shadows", 3)
  ]

  /** No two stored authors share an id. */
  ghost predicate UniqueAuthorIds(authors: seq<Author>) {
    forall i, j :: 0 <= i < |authors| && 0 <= j < |authors| && authors[i].id == authors[j].id ==> i == j
  }

  /** No two stored books share an id. */
  ghost predicate UniqueBookIds(books: seq<Book>) {
    forall i, j :: 0 <= i < |books| && 0 <= j < |books| && books[i].id == books[j].id ==> i == j
  }

  /** Every book's `authorId` names a stored author. */
  ghost predicate ReferencesResolve(authors: seq<Author>, books: seq<Book>) {
    forall b :: b in books ==> exists a :: a in authors && a.id == b.authorId
  }

  ghost predicate Consistent(authors: seq<Author>, books: seq<Book>) {
    UniqueAuthorIds(authors) && UniqueBookIds(books) && ReferencesResolve(authors, books)
  }

  /** The declared data satisfies the store's integrity constraints. */
  lemma StoreConsistent()
    ensures Consistent(Authors, Books)
  {
    assert forall i :: 0 <= i < |Authors| ==> Authors[i].id == i + 1;
    assert forall i :: 0 <= i < |Books| ==> Books[i].id == i + 1;
    forall b | b in Books
      ensures exists a :: a in Authors && a.id == b.authorId
    {
      assert 1 <= b.authorId <= 3;
      assert Authors[b.authorId - 1] in Authors;
    }
  }
}
