/**
 What a list ranked "highest rated first" means under the rating comparator.

 The comparator orders books in ascending rating, so a ranking reverses it:
 each book must compare at least as high as the one after it. This module
 states that order over sequences of books and proves that the comparator
 makes it coherent: local order implies global order, the head is the best
 rated, a prefix of a ranking is a ranking of the best books, and two
 rankings of the same books agree on the rating at every position.
 */
module Ranking {
  import opened RatingsComparator

  /**
   Each book ranks at least as high as its successor: the comparator's
   ascending order reversed, read as non-increasing average ratings.
   */
  function SortedDescending(xs: seq<Book>): (r: bool)
    ensures r <==> forall i :: 0 <= i && i + 1 < |xs| ==> xs[i].averageRating >= xs[i + 1].averageRating
  {
    forall i :: 0 <= i && i + 1 < |xs| ==> Compare(xs[i], xs[i + 1]) >= 0
  }

  /** Every book ranks at least as high as every book after it. */
  predicate PairwiseDescending(xs: seq<Book>) {
    forall i, j :: 0 <= i < j < |xs| ==> Compare(xs[i], xs[j]) >= 0
  }

  /** The local and the global reading of a descending ranking coincide. */
  lemma {:induction false} SortedDescendingIsPairwise(xs: seq<Book>)
    ensures SortedDescending(xs) <==> PairwiseDescending(xs)
    decreases |xs|
  {
    if SortedDescending(xs) && |xs| > 1 {
      var tail := xs[1..];
      assert SortedDescending(tail) by {
        forall i | 0 <= i && i + 1 < |tail|
          ensures Compare(tail[i], tail[i + 1]) >= 0
        {
          assert tail[i] == xs[i + 1] && tail[i + 1] == xs[i + 2];
        }
      }
      SortedDescendingIsPairwise(tail);
      forall i, j | 0 <= i < j < |xs|
        ensures Compare(xs[i], xs[j]) >= 0
      {
        if i == 0 {
          if j > 1 {
            assert xs[1] == tail[0] && xs[j] == tail[j - 1];
            CompareTransitive(xs[0], xs[1], xs[j]);
          }
        } else {
          assert xs[i] == tail[i - 1] && xs[j] == tail[j - 1];
        }
      }
    }
  }

  /** The first book of a ranking has the highest average rating of all. */
  lemma TopRatedFirst(xs: seq<Book>)
    requires SortedDescending(xs)
    requires |xs| > 0
    ensures forall i :: 0 <= i < |xs| ==> xs[0].averageRating >= xs[i].averageRating
  {
    SortedDescendingIsPairwise(xs);
  }

  /**
   Keeping the first `min(limit, |xs|)` books of a ranking leaves a ranking,
   and no book cut off is rated higher than any book kept. A limit beyond
   the length keeps every book.
   */
  lemma PrefixIsTopRated(xs: seq<Book>, limit: nat)
    requires SortedDescending(xs)
    ensures var k := if limit <= |xs| then limit else |xs|;
      && SortedDescending(xs[..k])
      && (forall i, j :: 0 <= i < k <= j < |xs| ==> xs[i].averageRating >= xs[j].averageRating)
  {
    var k := if limit <= |xs| then limit else |xs|;
    SortedDescendingIsPairwise(xs);
    forall i | 0 <= i && i + 1 < k
      ensures Compare(xs[..k][i], xs[..k][i + 1]) >= 0
    {
    }
  }

  /** Removing one book from a ranking leaves a ranking. */
  lemma RemovePreservesPairwise(ys: seq<Book>, j: nat)
    requires PairwiseDescending(ys)
    requires j < |ys|
    ensures PairwiseDescending(ys[..j] + ys[j + 1..])
  {
    var rest := ys[..j] + ys[j + 1..];
    forall p, q | 0 <= p < q < |rest|
      ensures Compare(rest[p], rest[q]) >= 0
    {
      var p' := if p < j then p else p + 1;
      var q' := if q < j then q else q + 1;
      assert rest[p] == ys[p'] && rest[q] == ys[q'];
    }
  }

  /**
   Two rankings of the same books list the same average rating at every
   position: however ties are broken, the rating order is determined.
   */
  lemma {:induction false} RankingsAgreeOnRatings(xs: seq<Book>, ys: seq<Book>)
    requires multiset(xs) == multiset(ys)
    requires SortedDescending(xs) && SortedDescending(ys)
    ensures |xs| == |ys|
    ensures forall i :: 0 <= i < |xs| ==> xs[i].averageRating == ys[i].averageRating
  {
    SortedDescendingIsPairwise(xs);
    SortedDescendingIsPairwise(ys);
    PairwiseRankingsAgree(xs, ys);
  }

  /** A tail of a ranking is a ranking. */
  lemma TailIsPairwise(xs: seq<Book>)
    requires PairwiseDescending(xs)
    requires |xs| > 0
    ensures PairwiseDescending(xs[1..])
  {
    var tail := xs[1..];
    forall p, q | 0 <= p < q < |tail|
      ensures Compare(tail[p], tail[q]) >= 0
    {
      assert tail[p] == xs[p + 1] && tail[q] == xs[q + 1];
    }
  }

  /** Taking out the book at position `j` takes out exactly one copy of it. */
  lemma MultisetWithout(ys: seq<Book>, j: nat)
    requires j < |ys|
    ensures multiset(ys[..j] + ys[j + 1..]) == multiset(ys) - multiset{ys[j]}
  {
    assert ys == ys[..j] + [ys[j]] + ys[j + 1..];
  }

  /** Taking the same book out of two equal collections leaves equal collections. */
  lemma SameBooksAfterRemoval(xs: seq<Book>, ys: seq<Book>, j: nat)
    requires multiset(xs) == multiset(ys)
    requires |xs| > 0 && j < |ys| && ys[j] == xs[0]
    ensures multiset(xs[1..]) == multiset(ys[..j] + ys[j + 1..])
  {
    MultisetWithout(ys, j);
    MultisetWithout(xs, 0);
    assert xs[..0] + xs[1..] == xs[1..];
  }

  /** Two rankings of the same non-empty collection of books have equally rated heads. */
  lemma HeadsTie(xs: seq<Book>, ys: seq<Book>)
    requires multiset(xs) == multiset(ys)
    requires PairwiseDescending(xs) && PairwiseDescending(ys)
    requires |xs| > 0 && |ys| > 0
    ensures xs[0].averageRating == ys[0].averageRating
  {
    assert xs[0] in multiset(ys);
    var j :| 0 <= j < |ys| && ys[j] == xs[0];
    assert ys[0] in multiset(xs);
    var j' :| 0 <= j' < |xs| && xs[j'] == ys[0];
    assert Compare(ys[0], ys[j]) >= 0 || j == 0;
    assert Compare(xs[0], xs[j']) >= 0 || j' == 0;
  }

  /** In a ranking, every book between the head and a book tied with it is tied too. */
  lemma TiedWithHead(ys: seq<Book>, j: nat)
    requires PairwiseDescending(ys)
    requires j < |ys| && ys[j].averageRating == ys[0].averageRating
    ensures forall i :: 0 <= i <= j ==> ys[i].averageRating == ys[0].averageRating
  {
    forall i | 0 <= i <= j
      ensures ys[i].averageRating == ys[0].averageRating
    {
      assert Compare(ys[0], ys[i]) >= 0 || i == 0;
      assert Compare(ys[i], ys[j]) >= 0 || i == j;
    }
  }

  /** Two rankings of the same books agree position by position on the average rating. */
  lemma {:induction false} PairwiseRankingsAgree(xs: seq<Book>, ys: seq<Book>)
    requires multiset(xs) == multiset(ys)
    requires PairwiseDescending(xs) && PairwiseDescending(ys)
    ensures |xs| == |ys|
    ensures forall i :: 0 <= i < |xs| ==> xs[i].averageRating == ys[i].averageRating
    decreases |xs|
  {
    assert |xs| == |multiset(xs)| == |multiset(ys)| == |ys|;
    if |xs| > 0 {
      HeadsTie(xs, ys);
      assert xs[0] in multiset(ys);
      var j :| 0 <= j < |ys| && ys[j] == xs[0];
      TiedWithHead(ys, j);
      var rest := ys[..j] + ys[j + 1..];
      var tail := xs[1..];
      RemovePreservesPairwise(ys, j);
      TailIsPairwise(xs);
      SameBooksAfterRemoval(xs, ys, j);
      PairwiseRankingsAgree(tail, rest);
      forall i | 0 <= i < |xs|
        ensures xs[i].averageRating == ys[i].averageRating
      {
        if i > 0 {
          assert xs[i] == tail[i - 1];
          if i - 1 < j {
            assert rest[i - 1] == ys[i - 1];
          } else {
            assert rest[i - 1] == ys[i];
          }
        }
      }
    }
  }

  /** The three books of the store's top-rated test, rated once each with 1, 5 and 2. */
  function ScenarioBooks(): multiset<Book> {
    multiset{Book(3044560, 1.0), Book(3044561, 5.0), Book(3044562, 2.0)}
  }

  /** The order the test expects: ISBN+1 (rated 5), ISBN+2 (rated 2), ISBN (rated 1). */
  const ScenarioRanking: seq<Book> := [Book(3044561, 5.0), Book(3044562, 2.0), Book(3044560, 1.0)]

  /** In the test's collection a book is identified by its average rating. */
  lemma ScenarioBookByRating(b: Book, c: Book)
    requires b in ScenarioBooks() && c in ScenarioBooks()
    requires b.averageRating == c.averageRating
    ensures b == c
  {
  }

  /** A ranking of the test's books lists the averages 5, 2, 1 in that order. */
  lemma ScenarioRatings(xs: seq<Book>)
    requires multiset(xs) == ScenarioBooks()
    requires SortedDescending(xs)
    ensures |xs| == 3
    ensures xs[0].averageRating == 5.0 && xs[1].averageRating == 2.0 && xs[2].averageRating == 1.0
  {
    assert SortedDescending(ScenarioRanking) && multiset(ScenarioRanking) == ScenarioBooks();
    RankingsAgreeOnRatings(xs, ScenarioRanking);
  }

  /** Every highest-first ranking of the test's books is the expected order. */
  lemma ScenarioRankingIsUnique(xs: seq<Book>)
    requires multiset(xs) == ScenarioBooks()
    requires SortedDescending(xs)
    ensures xs == ScenarioRanking
  {
    ScenarioRatings(xs);
    assert xs[0] in multiset(xs) && xs[1] in multiset(xs) && xs[2] in multiset(xs);
    ScenarioBookByRating(xs[0], Book(3044561, 5.0));
    ScenarioBookByRating(xs[1], Book(3044562, 2.0));
    ScenarioBookByRating(xs[2], Book(3044560, 1.0));
  }

  /**
   The top-rated scenario of the store's tests: a list is a highest-first
   ranking of the three books whose averages are 1, 5 and 2 exactly when it
   is the order 5, 2, 1 that the test asserts.
   */
  lemma TopRatedScenario(xs: seq<Book>)
    ensures multiset(xs) == ScenarioBooks() && SortedDescending(xs) <==> xs == ScenarioRanking
  {
    if multiset(xs) == ScenarioBooks() && SortedDescending(xs) {
      ScenarioRankingIsUnique(xs);
    }
    if xs == ScenarioRanking {
      assert SortedDescending(ScenarioRanking) && multiset(ScenarioRanking) == ScenarioBooks();
    }
  }
}
