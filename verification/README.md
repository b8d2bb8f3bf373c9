# Ratings comparator of the bookstore

The bookstore ranks books by customer rating with `RatingsComparator`. It is a
three-way comparison of two books' average ratings: 1 when the first is rated
higher, -1 when lower, 0 otherwise. It also has a near-equality test that
treats two averages as equal when they differ by less than one millionth.

This project models both operations over a `Book` whose average rating is an
uninterpreted real. Module `RatingsComparator` (`ratings_comparator.dfy`)
holds the two functions and the comparator laws that any sort relies on:
- results in {-1, 0, 1}, each result exactly matching how the two averages compare;
- antisymmetry, reflexivity, totality and transitivity (plain and strict);
- tied books are interchangeable against any third book.

It also proves that near-equality is reflexive and symmetric and that every
tie is near-equal. It exhibits witnesses for two negative facts: a near-equal
pair need not be tied, and near-equality is not transitive. In the source,
`equals(BookStoreBook, BookStoreBook)` is an overload, not the `equals(Object)`
of `java.util.Comparator`, so no sort ever calls it. The model keeps it
separate from the order for that reason.

Module `Ranking` (`ranking.dfy`) states what "highest rated first" means: the
comparator's order, reversed, which the store's tests expect from the
top-rated query. It proves that this order is coherent:
- a list in which each book ranks at least as high as the next ranks every
  book at least as high as every later one;
- the head is the best rated;
- a prefix of a ranking holds the best-rated books;
- any two rankings of the same books agree on the average rating at every
  position, so only ties are left to the tie-breaking rule.

The tests' three-book scenario is proved as a concrete instance.

## Model

| member | source | states |
|---|---|---|
| RatingsComparator.Compare | src/com/acertainbookstore/business/RatingsComparator.java:6-20 | the result is 1, 0 or -1; it is 1 exactly when the first book's average is strictly greater, -1 exactly when strictly smaller, 0 exactly when the averages are equal |
| RatingsComparator.Abs | src/com/acertainbookstore/business/RatingsComparator.java:25 | `Math.abs` of the difference: the result is non-negative and is either the argument or its negation |
| RatingsComparator.NearEqual | src/com/acertainbookstore/business/RatingsComparator.java:22-35 | true exactly when the difference of the two averages lies strictly between minus and plus one millionth (the absolute difference, taken with `Abs`, is below the tolerance) |
| RatingsComparator.CompareAntisymmetric | src/com/acertainbookstore/business/RatingsComparator.java:6-20 | swapping the two books negates the result |
| RatingsComparator.CompareReflexive | src/com/acertainbookstore/business/RatingsComparator.java:16-18 | every book compares equal to itself |
| RatingsComparator.CompareTotal | src/com/acertainbookstore/business/RatingsComparator.java:6-20 | of any two books, at least one ranks at least as high as the other |
| RatingsComparator.CompareTransitive | src/com/acertainbookstore/business/RatingsComparator.java:8-18 | if a ranks at least as high as b and b as c, then a ranks at least as high as c, and strictly higher when either step is strict |
| RatingsComparator.CompareTiesAreInterchangeable | src/com/acertainbookstore/business/RatingsComparator.java:16-18 | two tied books compare identically against every third book, in both argument positions |
| RatingsComparator.NearEqualReflexive | src/com/acertainbookstore/business/RatingsComparator.java:24-29 | every book is near-equal to itself |
| RatingsComparator.NearEqualSymmetric | src/com/acertainbookstore/business/RatingsComparator.java:24-33 | near-equality does not depend on argument order |
| RatingsComparator.CompareZeroImpliesNearEqual | src/com/acertainbookstore/business/RatingsComparator.java:16-29 | a tie under the comparison implies near-equality |
| RatingsComparator.NearEqualDoesNotImplyTie | src/com/acertainbookstore/business/RatingsComparator.java:8-29 | there are two books that are near-equal yet ordered by the comparison |
| RatingsComparator.NearEqualNotTransitive | src/com/acertainbookstore/business/RatingsComparator.java:24-33 | there are three books with a near b and b near c but a not near c |
| Ranking.SortedDescending | src/com/acertainbookstore/client/tests/BookStoreTest.java:382-387 | each book compares at least as high as its successor under `Compare` (the comparator at RatingsComparator.java:6-20 reversed), which holds exactly when the averages are non-increasing along the list |
| Ranking.SortedDescendingIsPairwise | src/com/acertainbookstore/business/RatingsComparator.java:8-18 | a list is ordered highest-first between neighbours exactly when it is ordered highest-first between every pair of positions |
| Ranking.TopRatedFirst | src/com/acertainbookstore/client/tests/BookStoreTest.java:382-383 | in a highest-first ranking the first book's average is at least every other book's |
| Ranking.PrefixIsTopRated | src/com/acertainbookstore/client/tests/BookStoreTest.java:382-387 | for any limit, the first min(limit, length) books of a ranking form a ranking, and no book after them has a higher average than any book in them; a limit beyond the length keeps every book |
| Ranking.RankingsAgreeOnRatings | src/com/acertainbookstore/business/RatingsComparator.java:6-20 | two highest-first rankings of the same multiset of books have equal length and equal averages at every position |
| Ranking.ScenarioRankingIsUnique | src/com/acertainbookstore/client/tests/BookStoreTest.java:384-387 | every highest-first ranking of the three test books with averages 1, 5 and 2 is ISBN+1, ISBN+2, ISBN |
| Ranking.TopRatedScenario | src/com/acertainbookstore/client/tests/BookStoreTest.java:372-387 | a list is a highest-first ranking of the three test books with averages 1, 5 and 2 if and only if it is ISBN+1, ISBN+2, ISBN: that order is a ranking of them, and it is the only one |

## Left out

- The average-rating formula: `BookStoreBook.getAverageRating` is not part of this model. The average is an uninterpreted field, and the value for an unrated book is not fixed.
- Floating point: averages are Java `float` values and are modelled as exact reals. NaN, infinities and rounding of the subtraction in `equals` are not modelled.
- RatingsComparator.NearEqual: the tolerance is the exact real 0.000001, while the source's `0.000001f` is the nearest `float` to it (slightly below). The boundary case of a difference equal to that float is not modelled.
- Sorting and the top-rated query: `Collections.sort` and the store's `getTopRatedBooks` are not part of this model. Only what a correctly sorted result must satisfy is stated.
- The store itself: the inventory operations, concurrency, HTTP proxy setup and teardown exercised by `BookStoreTest` call code that is not part of this model.
- Ranking.TopRatedScenario: the books are given their averages directly (one rating each, so the average equals the rating), instead of rating them through the store.
