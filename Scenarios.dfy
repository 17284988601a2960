/** Concrete queries against the declared data and the answers they get. */
module Scenarios {

  import opened Wrappers
  import opened ArrayOps
  import opened DataStore
  import opened Resolvers
  import opened Properties

  /** `{ book(id: 1) { name author { name } } }`. */
  lemma BookOneWithAuthor()
    ensures QueryBook(Some(1)).Some?
    ensures QueryBook(Some(1)).value.name == "Harry Potter and the Chamber of Secrets"
    ensures BookAuthor(QueryBook(Some(1)).value) == Some(Author(1, "J. K. Rowling"))
  {
    QueryBookFindsStored(Books[0]);
    BookAuthorOfStoredBook(Books[0]);
    AuthorIdentifiedById(BookAuthor(Books[0]).value, Authors[0]);
  }

  /** `{ book(id: 42) { name } }` finds nothing, and that is not an error. */
  lemma BookFortyTwoAbsent()
    ensures QueryBook(Some(42)) == None
  {
    assert forall i :: 0 <= i < |Books| ==> Books[i].id == i + 1;
  }

  /** `{ author(id: 3) { books { name } } }` lists two books, in declaration order. */
  lemma AuthorThreeBooks()
    ensures QueryAuthor(Some(3)) == Some(Authors[2])
    ensures |AuthorBooks(Authors[2])| == 2
    ensures AuthorBooks(Authors[2])[0].name == "The Way of Shadows"
    ensures AuthorBooks(Authors[2])[1].name == "Beyond the Shadows"
  {
    QueryAuthorFindsStored(Authors[2]);
    AuthorThreeListed();
  }

  /** Author 3's `books` are the seventh and eighth stored books, in that order. */
  lemma AuthorThreeListed()
    ensures AuthorBooks(Authors[2]) == [Books[6], Books[7]]
  {
    var listed := AuthorBooks(Authors[2]);
    ShadowsListed(listed);
  }

  /** Any order-preserving selection of stored books, all by author 3, that
      includes both of author 3's books is exactly those two, in order. */
  lemma ShadowsListed(r: seq<Book>)
    requires IsSubsequence(r, Books)
    requires forall b :: b in r ==> b.authorId == 3
    requires Books[6] in r && Books[7] in r
    ensures r == [Books[6], Books[7]]
  {
    var idx :| Embeds(idx, r, Books);
    ShadowsPositions(idx, r);
  }

  /** The books of author 3 sit at positions 6 and 7 of the store, so an
      embedding of them uses those positions in that order. */
  lemma ShadowsPositions(idx: seq<nat>, r: seq<Book>)
    requires Embeds(idx, r, Books)
    requires forall k :: 0 <= k < |r| ==> r[k].authorId == 3
    ensures |idx| <= 2
    ensures |idx| > 0 ==> 6 <= idx[0]
    ensures |idx| == 2 ==> idx[0] == 6 && idx[1] == 7
  {
    assert forall j :: 0 <= j < |Books| ==> Books[j].authorId == if j < 3 then 1 else if j < 6 then 2 else 3;
    assert forall k :: 0 <= k < |idx| ==> 6 <= idx[k] < 8;
    IncreasingFrom(idx, 6);
    if |idx| > 0 {
      assert idx[|idx| - 1] >= 6 + |idx| - 1;
    }
  }

  /** A strictly increasing sequence of positions, all at least `lo`, climbs at
      least one step per element. */
  lemma {:induction false} IncreasingFrom(idx: seq<nat>, lo: nat)
    requires forall k :: 0 <= k < |idx| ==> lo <= idx[k]
    requires forall k :: 0 < k < |idx| ==> idx[k - 1] < idx[k]
    ensures forall k :: 0 <= k < |idx| ==> lo + k <= idx[k]
  {
    if |idx| > 0 {
      var init := idx[..|idx| - 1];
      IncreasingFrom(init, lo);
      assert forall k :: 0 <= k < |init| ==> init[k] == idx[k];
      if |idx| > 1 {
        assert lo + |idx| - 2 <= idx[|idx| - 2] < idx[|idx| - 1];
      }
    }
  }
}
