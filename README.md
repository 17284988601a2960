# Books and authors GraphQL resolvers, modelled in Dafny

The server exposes two constant, ordered in-memory collections, authors
`{id, name}` and books `{id, name, authorId}`, through a GraphQL schema with
four root queries (`book(id)`, `author(id)`, `books`, `authors`) and two
cross-reference fields (`Book.author`, `Author.books`). Every resolver is one
expression: a JavaScript `find`, a `filter`, or the constant array itself.

This project models that data store and the six resolvers as pure Dafny
functions over sequences, and proves what they promise.

- `Wrappers.dfy`: `Option`, standing for "a value, or `undefined`/`null`".
- `ArrayOps.dfy`: `Find` and `Filter`, the semantics of `Array.prototype.find`
  and `Array.prototype.filter` with a side-effect-free callback. `Find` is
  specified as first-match-or-absent. `Filter` is specified by membership, by
  multiplicities and as an order-preserving subsequence. `find` is proved to
  return the head of what `filter` would return.
- `DataStore.dfy`: the `Author` and `Book` datatypes, the two constant
  collections exactly as declared, and the integrity constraints they meet:
  unique author ids, unique book ids, and every `authorId` naming an author.
- `Resolvers.dfy`: the six resolvers. The nullable `id` argument is an
  `Option<int>`. `book.id === args.id` never holds when `args.id` is
  `undefined` or `null`, so the model compares `Some(b.id) == id`.
- `Properties.dfy`: lookups by a stored entity's own id return that entity.
  `Book.author` is never absent for a stored book. The two cross-reference
  resolvers are inverse to each other. The authors' book lists partition the
  stored books, each book listed exactly once.
- `Scenarios.dfy`: the concrete queries `book(id: 1)` with its author,
  `book(id: 42)`, and `author(id: 3)` with its books.

A dangling `authorId` makes `Book.author` absent rather than an error (the `None` case of
`Resolvers.BookAuthor`). No such book exists in the declared data
(`DataStore.StoreConsistent`).

## Model

| member | source | states |
|---|---|---|
| `ArrayOps.Find` | server.js:74 | `find` returns nothing exactly when no element satisfies the callback; otherwise it returns an element of the array that satisfies it, and no earlier element does |
| `ArrayOps.Filter` | server.js:57 | `filter` keeps exactly the elements satisfying the callback and returns no more elements than the input has |
| `ArrayOps.FilterCounts` | server.js:57 | `filter` keeps each element satisfying the callback as many times as it occurs in the input, and no other element |
| `ArrayOps.FilterIsSubsequence` | server.js:57 | the elements `filter` keeps stay in the array's order (an increasing embedding into the input exists) |
| `ArrayOps.FindIsFirstOfFilter` | server.js:39 | `find` with a callback is absent when `filter` with it is empty, and otherwise is the first element `filter` returns |
| `DataStore.StoreConsistent` | server.js:6-21 | the declared data has unique author ids, unique book ids, and every book's `authorId` is some author's id |
| `Resolvers.QueryBook` | server.js:66-75 | `book(id)`: absent when `id` is omitted or no book has that id; otherwise a stored book with that id, the first one in declaration order |
| `Resolvers.QueryAuthor` | server.js:76-85 | `author(id)`: absent when `id` is omitted or no author has that id; otherwise a stored author with that id, the first one in declaration order |
| `Resolvers.QueryBooks` | server.js:86-90 | `books` returns the whole collection unchanged: 8 books, ids 1 to 8 in declaration order |
| `Resolvers.QueryAuthors` | server.js:91-95 | `authors` returns the whole collection unchanged: 3 authors, ids 1 to 3 in declaration order |
| `Resolvers.BookAuthor` | server.js:36-41 | `Book.author`: any author returned is stored and has id `book.authorId`; it is absent exactly when no stored author has that id |
| `Resolvers.AuthorBooks` | server.js:55-58 | `Author.books`: exactly the stored books whose `authorId` is the author's id, as an order-preserving subsequence of `books` |
| `Resolvers.AuthorBooksCounts` | server.js:57 | `Author.books` lists each of the author's books as often as it is stored, and no other book |
| `Properties.AuthorIdentifiedById` | server.js:6-10 | two stored authors with the same id are the same author |
| `Properties.BookIdentifiedById` | server.js:12-21 | two stored books with the same id are the same book |
| `Properties.BookStoredOnce` | server.js:12-21 | each stored book occurs exactly once in `books` |
| `Properties.QueryBookFindsStored` | server.js:74 | `book(id)` with a stored book's id returns exactly that book |
| `Properties.QueryAuthorFindsStored` | server.js:84 | `author(id)` with a stored author's id returns exactly that author |
| `Properties.BookAuthorOfStoredBook` | server.js:39 | `Book.author` of a stored book is never absent and is a stored author |
| `Properties.InverseConsistency` | server.js:38-57 | for a stored author `a` and stored book `b`: `b` is in `a.books` exactly when `b.author` is `a` |
| `Properties.AuthorBooksPartition` | server.js:57 | every stored book is in some stored author's `books`, in no other author's, and exactly once in its author's list |
| `Scenarios.BookOneWithAuthor` | server.js:66-75 | `book(id: 1)` is "Harry Potter and the Chamber of Secrets", and its author is J. K. Rowling |
| `Scenarios.BookFortyTwoAbsent` | server.js:74 | `book(id: 42)` is absent |
| `Scenarios.AuthorThreeBooks` | server.js:76-85 | `author(id: 3)` is the third author; its two books are named "The Way of Shadows" then "Beyond the Shadows" |
| `Scenarios.AuthorThreeListed` | server.js:55-58 | author 3's `books` are exactly the seventh and eighth stored books, in that order |

## Left out

- HTTP transport: the Express app, the `/` route serving the explorer page, the `/graphql` handler and `app.listen` with its log line (server.js:109-126). These are foreign library calls and I/O.
- The GraphQL engine: schema object construction, `GraphQLNonNull`/`GraphQLList` typing, argument coercion and validation, and the conversion of `undefined` to `null` (server.js:23-36, 45-56, 62-101). That behaviour lives in the `graphql` library, which is not part of this model. A resolver's absent result is modelled as `None`.
- Integer width: `GraphQLInt` restricts ids to 32-bit signed values during coercion. The model takes ids as unbounded `int`, because that coercion belongs to the engine and every declared id is small.
- The unused `root.hello` root value (server.js:103-107): the schema's resolvers never read it.
- The implicit global binding of `AuthorType` (server.js:45): a scoping detail with no effect on what the resolvers return.
- The second, reduced-schema server file is not part of this model.
