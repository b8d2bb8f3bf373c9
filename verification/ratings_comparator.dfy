/**
 The ordering rule the bookstore uses to rank books by customer rating.

 A book is reduced to what the comparator looks at: its ISBN, kept only so
 that books can be told apart, and its average rating. How the average is
 computed from the book's accumulated ratings is not part of this model, so
 it is an uninterpreted field. Java `float` values are modelled as exact
 reals: there is no NaN, no infinity and no rounding.
 */
module RatingsComparator {

  datatype Book = Book(isbn: int, averageRating: real)

  /** The tolerance of the near-equality test, one millionth. */
  const Epsilon: real := 0.000001

  /** `Math.abs` on the difference of two averages. */
  function Abs(x: real): (r: real)
    ensures r >= 0.0
    ensures r == x || r == -x
  {
    if x < 0.0 then -x else x
  }

  /**
   Three-way comparison of two books by average rating, in ascending
   order: 1 when `a` is rated higher, -1 when lower, 0 on equal averages.
   */
  function Compare(a: Book, b: Book): (r: int)
    ensures r == 1 || r == 0 || r == -1
    ensures r == 1 <==> a.averageRating > b.averageRating
    ensures r == -1 <==> a.averageRating < b.averageRating
    ensures r == 0 <==> a.averageRating == b.averageRating
  {
    if a.averageRating > b.averageRating then 1
    else if a.averageRating < b.averageRating then -1
    else 0
  }

  /** Near-equality: the two averages differ by strictly less than `Epsilon`. */
  function NearEqual(a: Book, b: Book): (r: bool)
    ensures r <==> -Epsilon < a.averageRating - b.averageRating < Epsilon
  {
    var delta := Abs(a.averageRating - b.averageRating);
    delta < Epsilon
  }

  /** Swapping the arguments negates the result (the sign rule of a comparator). */
  lemma CompareAntisymmetric(a: Book, b: Book)
    ensures Compare(a, b) == -Compare(b, a)
  {
  }

  /** Every book compares equal to itself. */
  lemma CompareReflexive(a: Book)
    ensures Compare(a, a) == 0
  {
  }

  /** Any two books are comparable in at least one direction. */
  lemma CompareTotal(a: Book, b: Book)
    ensures Compare(a, b) >= 0 || Compare(b, a) >= 0
  {
  }

  /** "Ranks at least as high" is transitive, and strictly so when either step is strict. */
  lemma CompareTransitive(a: Book, b: Book, c: Book)
    requires Compare(a, b) >= 0 && Compare(b, c) >= 0
    ensures Compare(a, c) >= 0
    ensures Compare(a, b) > 0 || Compare(b, c) > 0 ==> Compare(a, c) > 0
  {
  }

  /** Books that compare equal compare the same way against every third book. */
  lemma CompareTiesAreInterchangeable(a: Book, b: Book, c: Book)
    requires Compare(a, b) == 0
    ensures Compare(a, c) == Compare(b, c)
    ensures Compare(c, a) == Compare(c, b)
  {
  }

  /** Near-equality holds of every book with itself. */
  lemma NearEqualReflexive(a: Book)
    ensures NearEqual(a, a)
  {
  }

  /** Near-equality does not depend on the order of its arguments. */
  lemma NearEqualSymmetric(a: Book, b: Book)
    ensures NearEqual(a, b) <==> NearEqual(b, a)
  {
  }

  /** Books that the comparator ties are near-equal. */
  lemma CompareZeroImpliesNearEqual(a: Book, b: Book)
    ensures Compare(a, b) == 0 ==> NearEqual(a, b)
  {
  }

  /** The converse fails: two distinct averages closer than `Epsilon` are near-equal yet ordered. */
  lemma NearEqualDoesNotImplyTie()
    ensures exists a: Book, b: Book :: NearEqual(a, b) && Compare(a, b) != 0
  {
    var a := Book(1, 1.0);
    var b := Book(2, 1.0 + Epsilon / 2.0);
    assert NearEqual(a, b) && Compare(a, b) != 0;
  }

  /** Near-equality is not transitive: small differences add up past `Epsilon`. */
  lemma NearEqualNotTransitive()
    ensures exists a: Book, b: Book, c: Book :: NearEqual(a, b) && NearEqual(b, c) && !NearEqual(a, c)
  {
    var a := Book(1, 1.0);
    var b := Book(2, 1.0 + 3.0 * Epsilon / 4.0);
    var c := Book(3, 1.0 + 3.0 * Epsilon / 2.0);
    assert NearEqual(a, b) && NearEqual(b, c) && !NearEqual(a, c);
  }
}
