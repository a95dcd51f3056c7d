/**
 * `compute_rating_correlation` from compare_goodreads.py: turn the reviews of
 * a book comparison into integer rating pairs, dropping every review whose
 * ratings do not parse, and correlate the pairs.
 *
 * Python's `int()` is passed in as `parse`, an arbitrary total function from
 * the rating text to an optional integer (None standing for ValueError).
 */
module RatingCorrelation {
  import opened Wrappers
  import opened RatingStats
  import opened PearsonCorrelation

  /** One commonly rated book: both ratings as the platform reports them. */
  datatype Review = Review(yourRating: string, theirRating: string)

  /** Both ratings of a review, or None when either of them fails to parse. */
  function ParseReview(r: Review, parse: string -> Option<int>): (p: Option<RatingPair>)
    ensures p.Some? <==> parse(r.yourRating).Some? && parse(r.theirRating).Some?
    ensures p.Some? ==> p.value == RatingPair(parse(r.yourRating).value, parse(r.theirRating).value)
  {
    match parse(r.yourRating)
    case None => None
    case Some(mine) =>
      match parse(r.theirRating)
      case None => None
      case Some(theirs) => Some(RatingPair(mine, theirs))
  }

  /** The pairs of the reviews that parse, in review order. */
  function ParsedPairs(reviews: seq<Review>, parse: string -> Option<int>): seq<RatingPair>
  {
    if |reviews| == 0 then []
    else
      var init := ParsedPairs(reviews[..|reviews| - 1], parse);
      match ParseReview(reviews[|reviews| - 1], parse)
      case None => init
      case Some(p) => init + [p]
  }

  /**
   * `idx` lists, in increasing order, exactly the positions of the reviews
   * that parse, and `ps[k]` is the pair parsed from review `idx[k]`.
   */
  ghost predicate SelectsParsed(reviews: seq<Review>, parse: string -> Option<int>, idx: seq<nat>, ps: seq<RatingPair>)
  {
    && |idx| == |ps|
    && (forall k :: 0 <= k < |idx| ==> idx[k] < |reviews| && ParseReview(reviews[idx[k]], parse) == Some(ps[k]))
    && (forall k, l :: 0 <= k < l < |idx| ==> idx[k] < idx[l])
    && (forall j :: 0 <= j < |reviews| && ParseReview(reviews[j], parse).Some? ==> j in idx)
  }

  /** The pairs handed to `pearson` are the parsing reviews, in order, and no others. */
  lemma {:induction false} ParsedPairsSelects(reviews: seq<Review>, parse: string -> Option<int>)
    ensures exists idx: seq<nat> :: SelectsParsed(reviews, parse, idx, ParsedPairs(reviews, parse))
  {
    if |reviews| == 0 {
      var none: seq<nat> := [];
      assert SelectsParsed(reviews, parse, none, ParsedPairs(reviews, parse));
    } else {
      var n := |reviews| - 1;
      ParsedPairsSelects(reviews[..n], parse);
      var idx: seq<nat> :| SelectsParsed(reviews[..n], parse, idx, ParsedPairs(reviews[..n], parse));
      SelectsParsedExtend(reviews, parse, idx, ParsedPairs(reviews[..n], parse));
      if ParseReview(reviews[n], parse).Some? {
        assert SelectsParsed(reviews, parse, idx + [n], ParsedPairs(reviews, parse));
      } else {
        assert SelectsParsed(reviews, parse, idx, ParsedPairs(reviews, parse));
      }
    }
  }

  /** A selection for all reviews but the last extends to one for all reviews. */
  lemma SelectsParsedExtend(reviews: seq<Review>, parse: string -> Option<int>, idx: seq<nat>, ps: seq<RatingPair>)
    requires |reviews| > 0
    requires SelectsParsed(reviews[..|reviews| - 1], parse, idx, ps)
    ensures ParseReview(reviews[|reviews| - 1], parse).None? ==> SelectsParsed(reviews, parse, idx, ps)
    ensures ParseReview(reviews[|reviews| - 1], parse).Some? ==>
              SelectsParsed(reviews, parse, idx + [|reviews| - 1], ps + [ParseReview(reviews[|reviews| - 1], parse).value])
  {
    var n := |reviews| - 1;
    var init := reviews[..n];
    assert forall j :: 0 <= j < n ==> init[j] == reviews[j];
    assert forall k :: 0 <= k < |idx| ==> idx[k] < n && ParseReview(reviews[idx[k]], parse) == Some(ps[k]);
    if ParseReview(reviews[n], parse).Some? {
      var idx', ps' := idx + [n], ps + [ParseReview(reviews[n], parse).value];
      assert forall k :: 0 <= k < |idx| ==> idx'[k] == idx[k] && ps'[k] == ps[k];
      assert forall j :: 0 <= j < n && ParseReview(reviews[j], parse).Some? ==> j in idx;
    }
  }

  /** Any selection of the parsing reviews, in order, is the list the loop builds. */
  lemma {:induction false} SelectsParsedUnique(reviews: seq<Review>, parse: string -> Option<int>, idx: seq<nat>, ps: seq<RatingPair>)
    requires SelectsParsed(reviews, parse, idx, ps)
    ensures ps == ParsedPairs(reviews, parse)
  {
    if |reviews| > 0 {
      var n := |reviews| - 1;
      var init := reviews[..n];
      if ParseReview(reviews[n], parse).None? {
        SelectsParsedDropUnparsed(reviews, parse, idx, ps);
        SelectsParsedUnique(init, parse, idx, ps);
      } else {
        var last := |idx| - 1;
        SelectsParsedDropParsed(reviews, parse, idx, ps);
        SelectsParsedUnique(init, parse, idx[..last], ps[..last]);
        assert ps == ps[..last] + [ps[last]];
      }
    } else {
      SelectsParsedEmpty(reviews, parse, idx, ps);
    }
  }

  /** Nothing is selected from no reviews. */
  lemma SelectsParsedEmpty(reviews: seq<Review>, parse: string -> Option<int>, idx: seq<nat>, ps: seq<RatingPair>)
    requires |reviews| == 0 && SelectsParsed(reviews, parse, idx, ps)
    ensures ps == []
  {
    // `(idx + [0])[0]` is `idx[0]` when `idx` is not empty, and that would be
    // a review position below |reviews| == 0.
    var first := (idx + [0])[0];
  }

  /** A last review that does not parse contributes nothing to a selection. */
  lemma SelectsParsedDropUnparsed(reviews: seq<Review>, parse: string -> Option<int>, idx: seq<nat>, ps: seq<RatingPair>)
    requires |reviews| > 0 && ParseReview(reviews[|reviews| - 1], parse).None?
    requires SelectsParsed(reviews, parse, idx, ps)
    ensures SelectsParsed(reviews[..|reviews| - 1], parse, idx, ps)
  {
    var n := |reviews| - 1;
    assert forall k :: 0 <= k < |idx| ==> idx[k] < n;
  }

  /** A last review that parses is the last entry of a selection, and the rest selects the prefix. */
  lemma SelectsParsedDropParsed(reviews: seq<Review>, parse: string -> Option<int>, idx: seq<nat>, ps: seq<RatingPair>)
    requires |reviews| > 0 && ParseReview(reviews[|reviews| - 1], parse).Some?
    requires SelectsParsed(reviews, parse, idx, ps)
    ensures |idx| > 0 && idx[|idx| - 1] == |reviews| - 1
    ensures ParseReview(reviews[|reviews| - 1], parse) == Some(ps[|ps| - 1])
    ensures SelectsParsed(reviews[..|reviews| - 1], parse, idx[..|idx| - 1], ps[..|ps| - 1])
  {
    var n := |reviews| - 1;
    var init := reviews[..n];
    assert n in idx;
    var last := |idx| - 1;
    assert idx[last] == n by {
      var k :| 0 <= k < |idx| && idx[k] == n;
      assert idx[k] <= idx[last];
    }
    var idx', ps' := idx[..last], ps[..last];
    forall k | 0 <= k < |idx'| ensures idx'[k] < n && ParseReview(init[idx'[k]], parse) == Some(ps'[k]) {
      assert idx[k] < idx[last];
    }
    forall j | 0 <= j < |init| && ParseReview(init[j], parse).Some? ensures j in idx' {
      assert reviews[j] == init[j];
      var k :| 0 <= k < |idx| && idx[k] == j;
      assert k != last;
    }
  }

  /** With no parsing review, the correlation is the "no correlation" 0. */
  lemma NothingParsesGivesNoCorrelation(reviews: seq<Review>, parse: string -> Option<int>)
    requires forall j :: 0 <= j < |reviews| ==> ParseReview(reviews[j], parse).None?
    ensures ParsedPairs(reviews, parse) == []
    ensures PearsonOf(ParsedPairs(reviews, parse)) == NoCorrelation
  {
    ParsedPairsSelects(reviews, parse);
    var idx: seq<nat> :| SelectsParsed(reviews, parse, idx, ParsedPairs(reviews, parse));
  }

  /**
   * The source loop: returns 0 at once for an empty comparison, otherwise
   * collects the parsing pairs in order and hands them to `pearson`.
   */
  method ComputeRatingCorrelation(reviews: seq<Review>, parse: string -> Option<int>) returns (distance: Coefficient)
    ensures distance == PearsonOf(ParsedPairs(reviews, parse))
    ensures |reviews| == 0 ==> distance == NoCorrelation
  {
    if |reviews| < 1 {
      return NoCorrelation;
    }
    var ratings: seq<RatingPair> := [];
    for i := 0 to |reviews|
      invariant ratings == ParsedPairs(reviews[..i], parse)
    {
      assert reviews[..i + 1][..i] == reviews[..i];
      var r1 := parse(reviews[i].yourRating);
      if r1.None? {
        continue;
      }
      var r2 := parse(reviews[i].theirRating);
      if r2.None? {
        continue;
      }
      ratings := ratings + [RatingPair(r1.value, r2.value)];
    }
    assert reviews[..|reviews|] == reviews;
    distance := Pearson(ratings);
  }
}
