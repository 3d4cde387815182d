/**
 * The book record shared by the scraper, the API server and the web client,
 * and the collection that stores it.
 *
 * Prices are whole pence throughout the model.
 */
module BookModel {

  /** The two stock texts the scraper writes. */
  const InStock: string := "In stock"
  const OutOfStock: string := "Out of stock"

  datatype Book = Book(
    title: string,
    price: int,
    stock: string,
    rating: int,
    detailUrl: string,
    imageUrl: string)

  /** A stored document: a book with the identifier the store gave it on insert. */
  datatype Doc = Doc(id: nat, book: Book)

  /** The books of a list of documents, in order. */
  function Books(docs: seq<Doc>): (bs: seq<Book>)
    ensures |bs| == |docs|
  {
    seq(|docs|, i requires 0 <= i < |docs| => docs[i].book)
  }

  /** The documents `insertMany` creates: identifiers `first`, `first + 1`, ... in order. */
  function Stamped(books: seq<Book>, first: nat): (docs: seq<Doc>)
    ensures Books(docs) == books
    ensures forall i :: 0 <= i < |docs| ==> docs[i].id == first + i
  {
    seq(|books|, i requires 0 <= i < |books| => Doc(first + i, books[i]))
  }

  /**
   * The schema's `required` check on one book: no text field is empty. The
   * two number fields always hold a number in the model.
   */
  predicate Admissible(b: Book) {
    b.title != "" && b.stock != "" && b.detailUrl != "" && b.imageUrl != ""
  }

  /**
   * The book collection. Identifiers are handed out from a counter that only
   * grows, so an identifier is never reused, not even after every document
   * has been deleted.
   */
  class BookStore {
    var docs: seq<Doc>
    var nextId: nat

    ghost predicate Valid()
      reads this
    {
      && (forall i :: 0 <= i < |docs| ==> docs[i].id < nextId)
      && (forall i, j :: 0 <= i < j < |docs| ==> docs[i].id != docs[j].id)
    }

    constructor ()
      ensures Valid() && docs == [] && nextId == 0
    {
      docs := [];
      nextId := 0;
    }

    /** `deleteMany({})`: removes every document. */
    method DeleteMany()
      requires Valid()
      modifies this`docs
      ensures Valid() && docs == []
    {
      docs := [];
    }

    /**
     * `insertMany(books)` with the default ordered insert: every book is
     * validated against the schema before any is written, and one book that
     * fails rejects the whole call with nothing inserted. Otherwise one fresh
     * document per book is appended, in order.
     */
    method InsertMany(books: seq<Book>) returns (ok: bool)
      requires Valid()
      modifies this
      ensures Valid()
      ensures ok <==> forall i :: 0 <= i < |books| ==> Admissible(books[i])
      ensures ok ==> docs == old(docs) + Stamped(books, old(nextId))
      ensures ok ==> nextId == old(nextId) + |books|
      ensures !ok ==> docs == old(docs) && nextId == old(nextId)
    {
      var j := 0;
      while j < |books|
        invariant 0 <= j <= |books|
        invariant forall i :: 0 <= i < j ==> Admissible(books[i])
      {
        if !Admissible(books[j]) {
          return false;
        }
        j := j + 1;
      }
      var i := 0;
      while i < |books|
        invariant 0 <= i <= |books|
        invariant nextId == old(nextId) + i
        invariant docs == old(docs) + Stamped(books[..i], old(nextId))
        invariant Valid()
      {
        docs := docs + [Doc(nextId, books[i])];
        nextId := nextId + 1;
        i := i + 1;
        assert Stamped(books[..i], old(nextId)) == Stamped(books[..i - 1], old(nextId)) + [Doc(nextId - 1, books[i - 1])];
      }
      assert books[..i] == books;
      ok := true;
    }
  }
}
