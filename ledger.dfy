/**
 * The rating ledger of a book as `exports.rate` in controllers/bookController.js
 * handles it: the conversion of the client's grade, the duplicate-rater test
 * (`some`), the sum (`reduce`) and the average rounded to one decimal with
 * `Math.round`. Grades are exact reals; `Math.round(x)` is `floor(x + 1/2)`.
 */
module Ledger {
  import opened Common
  import opened BookSchema

  /** A JavaScript number as `Number(req.body.rating)` produces it. */
  datatype JsNumber = NaN | Infinity(negative: bool) | Finite(value: real)

  /** JavaScript's `x < c` for a finite `c` (false whenever NaN is involved). */
  predicate LessThan(x: JsNumber, c: real) {
    match x
    case NaN => false
    case Infinity(negative) => negative
    case Finite(v) => v < c
  }

  /** JavaScript's `x > c` for a finite `c`. */
  predicate GreaterThan(x: JsNumber, c: real) {
    match x
    case NaN => false
    case Infinity(negative) => !negative
    case Finite(v) => v > c
  }

  /** The guard `Number.isNaN(grade) || grade < 0 || grade > 5`, negated: the grade
      that is stored, or None when the request is refused. */
  function AcceptedGrade(x: JsNumber): (g: Option<real>)
    ensures g.Some? <==> x.Finite? && MinGrade <= x.value <= MaxGrade
    ensures g.Some? ==> g.value == x.value
  {
    if x.NaN? || LessThan(x, MinGrade) || GreaterThan(x, MaxGrade) then None
    else Some(x.value)
  }

  /** Whether some entry of the ledger was left by `userId`. */
  function HasRated(rs: seq<Rating>, userId: string): (b: bool)
    ensures b <==> exists i :: 0 <= i < |rs| && rs[i].userId == userId
  {
    if rs == [] then false else rs[0].userId == userId || HasRated(rs[1..], userId)
  }

  /** No two entries share a rater. */
  predicate DistinctRaters(rs: seq<Rating>) {
    forall i, j :: 0 <= i < j < |rs| ==> rs[i].userId != rs[j].userId
  }

  /** Appending a rater who has not rated yet keeps the raters distinct. */
  lemma AppendKeepsDistinct(rs: seq<Rating>, r: Rating)
    requires DistinctRaters(rs) && !HasRated(rs, r.userId)
    ensures DistinctRaters(rs + [r])
  {
  }

  predicate GradesInRange(rs: seq<Rating>) {
    forall i :: 0 <= i < |rs| ==> MinGrade <= rs[i].grade <= MaxGrade
  }

  /** The sum of the ledger's grades, added from the first entry to the last. */
  function SumGrades(rs: seq<Rating>): (sum: real)
    ensures GradesInRange(rs) ==> 0.0 <= sum <= MaxGrade * (|rs| as real)
  {
    if rs == [] then 0.0
    else
      var init := rs[..|rs| - 1];
      assert GradesInRange(rs) ==> GradesInRange(init);
      SumGrades(init) + rs[|rs| - 1].grade
  }

  /** The sum over a list extended by one entry is the old sum plus its grade. */
  lemma SumAppend(rs: seq<Rating>, r: Rating)
    ensures SumGrades(rs + [r]) == SumGrades(rs) + r.grade
  {
    assert (rs + [r])[..|rs|] == rs;
  }

  /** `Math.round(x)`: the integer nearest to `x`, halves rounded up. */
  function JsRound(x: real): (n: int)
    ensures x - 0.5 < n as real <= x + 0.5
  {
    (x + 0.5).Floor
  }

  /** The mean grade of a non-empty ledger, rounded half up to one decimal place. */
  function AverageOf(rs: seq<Rating>): (avg: real)
    requires rs != []
    ensures (avg * 10.0).Floor as real == avg * 10.0
  {
    (JsRound(SumGrades(rs) / (|rs| as real) * 10.0) as real) / 10.0
  }

  /** A book rated once, with a grade given in tenths, shows that grade. */
  lemma SingleRatingAverage(userId: string, grade: real)
    requires (grade * 10.0).Floor as real == grade * 10.0
    ensures AverageOf([Rating(userId, grade)]) == grade
  {
    var rs := [Rating(userId, grade)];
    assert rs[..0] == [];
    assert SumGrades(rs) == grade;
    assert JsRound(grade * 10.0) == (grade * 10.0).Floor;
  }

  /** The exact mean of the grades. */
  function Mean(rs: seq<Rating>): real
    requires rs != []
  {
    SumGrades(rs) / (|rs| as real)
  }

  /** The stored average is within a twentieth of the exact mean. */
  lemma AverageNearMean(rs: seq<Rating>)
    requires rs != []
    ensures Mean(rs) - 0.05 < AverageOf(rs) <= Mean(rs) + 0.05
  {
    var n := JsRound(Mean(rs) * 10.0);
    assert AverageOf(rs) == (n as real) / 10.0;
  }

  lemma MeanInRange(rs: seq<Rating>)
    requires rs != [] && GradesInRange(rs)
    ensures MinGrade <= Mean(rs) <= MaxGrade
  {
    var n := |rs| as real;
    var s := SumGrades(rs);
    assert 0.0 <= s <= MaxGrade * n;
    assert s / n <= MaxGrade by {
      assert s <= MaxGrade * n;
    }
  }

  /** When every grade is between 0 and 5, so is the stored average. */
  lemma AverageInRange(rs: seq<Rating>)
    requires rs != [] && GradesInRange(rs)
    ensures MinGrade <= AverageOf(rs) <= MaxGrade
  {
    MeanInRange(rs);
    var x := Mean(rs) * 10.0;
    assert 0.0 <= x <= 50.0;
    var n := JsRound(x);
    assert 0 <= n <= 50;
    assert AverageOf(rs) == (n as real) / 10.0;
  }

  /** The ledger part of a stored book: one entry per rater, every grade in range,
      and the average derived from the entries (0 for an unrated book). */
  predicate LedgerConsistent(b: Book) {
    && DistinctRaters(b.ratings)
    && (forall i :: 0 <= i < |b.ratings| ==> ValidRating(b.ratings[i]))
    && b.averageRating == (if b.ratings == [] then DefaultAverage else AverageOf(b.ratings))
  }

  /** The average of a consistent ledger lies between 0 and 5. */
  lemma ConsistentAverageInRange(b: Book)
    requires LedgerConsistent(b)
    ensures MinGrade <= b.averageRating <= MaxGrade
  {
    if b.ratings != [] {
      AverageInRange(b.ratings);
    }
  }

  /** The book after a rating is accepted: the entry appended, the average redone. */
  function WithRating(b: Book, userId: string, grade: real): (nb: Book)
    ensures nb.ratings == b.ratings + [Rating(userId, grade)]
    ensures |nb.ratings| == |b.ratings| + 1 && nb.ratings[..|b.ratings|] == b.ratings
    ensures nb.averageRating == AverageOf(nb.ratings)
    ensures nb == b.(ratings := nb.ratings, averageRating := nb.averageRating)
  {
    var rs := b.ratings + [Rating(userId, grade)];
    assert rs[..|b.ratings|] == b.ratings;
    b.(ratings := rs, averageRating := AverageOf(rs))
  }

  /** Accepting a rating from a new rater with a grade in range keeps the ledger
      consistent. */
  lemma WithRatingKeepsConsistent(b: Book, userId: string, grade: real)
    requires LedgerConsistent(b)
    requires !HasRated(b.ratings, userId) && userId != "" && MinGrade <= grade <= MaxGrade
    ensures LedgerConsistent(WithRating(b, userId, grade))
  {
    AppendKeepsDistinct(b.ratings, Rating(userId, grade));
  }

  /** Starting from an unrated book, ratings g1..gN from N distinct raters leave N
      entries, in arrival order, and the rounded mean of g1..gN. */
  lemma RatingSequence(b: Book, raters: seq<string>, grades: seq<real>)
    requires |raters| == |grades|
    requires b.ratings == []
    ensures var nb := RateAll(b, raters, grades);
            |nb.ratings| == |raters|
            && (forall i :: 0 <= i < |raters| ==> nb.ratings[i] == Rating(raters[i], grades[i]))
            && (raters != [] ==> nb.averageRating == AverageOf(nb.ratings))
  {
    RatedEntries(b, raters, grades);
  }

  /** The entries left by a sequence of accepted ratings, in arrival order. */
  lemma {:induction false} RatedEntries(b: Book, raters: seq<string>, grades: seq<real>)
    requires |raters| == |grades|
    requires b.ratings == []
    ensures |RateAll(b, raters, grades).ratings| == |raters|
    ensures forall i :: 0 <= i < |raters| ==>
              RateAll(b, raters, grades).ratings[i] == Rating(raters[i], grades[i])
    decreases |raters|
  {
    if raters != [] {
      var n := |raters| - 1;
      RatedEntries(b, raters[..n], grades[..n]);
      LastRating(b, raters, grades);
      EntriesExtend(RateAll(b, raters[..n], grades[..n]).ratings, raters, grades);
    }
  }

  /** The last rating of a sequence is the one appended last. */
  lemma LastRating(b: Book, raters: seq<string>, grades: seq<real>)
    requires |raters| == |grades| && raters != []
    ensures var n := |raters| - 1;
            RateAll(b, raters, grades).ratings
            == RateAll(b, raters[..n], grades[..n]).ratings + [Rating(raters[n], grades[n])]
  {
  }

  /** Entries matching all but the last rater and grade, extended by the last. */
  lemma EntriesExtend(prev: seq<Rating>, raters: seq<string>, grades: seq<real>)
    requires |raters| == |grades| && raters != []
    requires |prev| == |raters| - 1
    requires forall i :: 0 <= i < |prev| ==> prev[i] == Rating(raters[..|prev|][i], grades[..|prev|][i])
    ensures var rs := prev + [Rating(raters[|prev|], grades[|prev|])];
            forall i :: 0 <= i < |raters| ==> rs[i] == Rating(raters[i], grades[i])
  {
    var rs := prev + [Rating(raters[|prev|], grades[|prev|])];
    forall i | 0 <= i < |raters|
      ensures rs[i] == Rating(raters[i], grades[i])
    {
      if i < |prev| {
        assert rs[i] == prev[i];
        assert raters[..|prev|][i] == raters[i] && grades[..|prev|][i] == grades[i];
      }
    }
  }

  /** Accepting the ratings one after another. */
  function RateAll(b: Book, raters: seq<string>, grades: seq<real>): Book
    requires |raters| == |grades|
    decreases |raters|
  {
    if raters == [] then b
    else
      var n := |raters| - 1;
      WithRating(RateAll(b, raters[..n], grades[..n]), raters[n], grades[n])
  }
}
