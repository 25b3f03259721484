/** Reviews of earlier objectives, and when they still close an objective. */
module PlannerReviews {
  import opened Basics
  import opened StableSort
  import opened PlannerEvidence
  import opened ResearchStatus

  datatype Review = Review(
    index: nat, completed: bool, basis: Basis, claims: seq<Id>, sources: seq<Id>, reference: Payload)

  datatype Cycle = Cycle(
    number: int, status: CycleStatus, objectives: seq<string>, planningBasis: seq<Basis>, unresolved: seq<string>,
    reviews: seq<Review>)

  /** The basis of what a review itself cites. */
  function ReferenceBasis(review: Review): Basis {
    Basis(UnverifiedClaim, None, None, None, review.claims, review.sources, None)
  }

  /** The evidence below the review, and below what it cites, is as it was. */
  predicate ReviewIsCurrent(review: Review, e: Evidence) {
    && WithEvidence(review.basis.(fingerprint := None), e) == review.basis
    && WithEvidence(ReferenceBasis(review), e).fingerprint == Some(review.reference)
  }

  /** A current review of a narrow objective stays current exactly as long as what it refers to, and what it cites, stays
      the same. Edits elsewhere in the investigation never make it stale. */
  lemma {:induction false} ReviewStaysCurrentExactly(review: Review, a: Evidence, b: Evidence)
    requires Keyed(a) && Keyed(b) && ReviewIsCurrent(review, a)
    requires var basis := review.basis.(fingerprint := None); Narrow(basis, a) && Narrow(ReferenceBasis(review), a)
    ensures ReviewIsCurrent(review, b) <==>
      && SameReferenced(review.basis.(fingerprint := None), a, b)
      && SameReferenced(Basis(UnverifiedClaim, None, None, None, review.claims, review.sources, None), a, b)
  {
    FingerprintIsLocal(review.basis.(fingerprint := None), a, b);
    FingerprintIsLocal(ReferenceBasis(review), a, b);
  }

  /** A review recorded with the present evidence is current. */
  lemma {:induction false} FreshReviewIsCurrent(review: Review, e: Evidence)
    requires review.basis == WithEvidence(review.basis.(fingerprint := None), e)
    requires Some(review.reference) ==
      WithEvidence(Basis(UnverifiedClaim, None, None, None, review.claims, review.sources, None), e).fingerprint
    ensures ReviewIsCurrent(review, e)
  {
  }

  /** The last review of an index governs. */
  function LatestReview(reviews: seq<Review>, index: nat): Option<Review> {
    if reviews == [] then None
    else if reviews[|reviews| - 1].index == index then Some(reviews[|reviews| - 1])
    else LatestReview(reviews[..|reviews| - 1], index)
  }

  predicate Occurs(cycle: Cycle, objective: string, index: nat) {
    index < |cycle.objectives| && Strip(cycle.objectives[index]) == Strip(objective)
  }

  predicate HasReviewed(cycle: Cycle, objective: string) {
    exists i | 0 <= i < |cycle.objectives| :: Occurs(cycle, objective, i) && LatestReview(cycle.reviews, i).Some?
  }

  /** The occurrence is closed by a completed review that is current and, where a basis is given, about that basis. */
  predicate Closes(cycle: Cycle, index: nat, e: Evidence, basis: Option<Basis>) {
    match LatestReview(cycle.reviews, index)
    case None => false
    case Some(review) =>
      review.completed && ReviewIsCurrent(review, e) && (basis.Some? ==> review.basis == WithEvidence(basis.value, e))
  }

  predicate AllClosed(cycle: Cycle, objective: string, e: Evidence, basis: Option<Basis>) {
    forall i | 0 <= i < |cycle.objectives| && Occurs(cycle, objective, i) :: Closes(cycle, i, e, basis)
  }

  /** The first cycle with a reviewed occurrence decides. */
  function FirstReviewedClosed(cycles: seq<Cycle>, objective: string, e: Evidence, basis: Option<Basis>): bool {
    if cycles == [] then false
    else if HasReviewed(cycles[0], objective) then AllClosed(cycles[0], objective, e, basis)
    else FirstReviewedClosed(cycles[1..], objective, e, basis)
  }

  function NewestFirst(cycles: seq<Cycle>): seq<Cycle> {
    SortBy(cycles, (cycle: Cycle) => -cycle.number)
  }

  function ReviewedComplete(cycles: seq<Cycle>, objective: string, e: Evidence, basis: Option<Basis>): bool {
    FirstReviewedClosed(NewestFirst(cycles), objective, e, basis)
  }

  /** No newer cycle reviewed the objective. */
  ghost predicate NewestReviewed(cycles: seq<Cycle>, objective: string, cycle: Cycle) {
    && cycle in cycles && HasReviewed(cycle, objective)
    && forall other | other in cycles && HasReviewed(other, objective) :: other.number <= cycle.number
  }

  lemma {:induction false} FirstIsNewest(cycles: seq<Cycle>, objective: string, e: Evidence, basis: Option<Basis>)
    requires StrictlyBy(cycles, (cycle: Cycle) => -cycle.number)
    ensures FirstReviewedClosed(cycles, objective, e, basis) <==>
      exists cycle :: NewestReviewed(cycles, objective, cycle) && AllClosed(cycle, objective, e, basis)
  {
    if cycles != [] {
      var head, rest := cycles[0], cycles[1..];
      assert cycles == [head] + rest;
      if HasReviewed(head, objective) {
        assert NewestReviewed(cycles, objective, head);
        forall cycle | NewestReviewed(cycles, objective, cycle)
          ensures cycle == head
        {
          var i :| 0 <= i < |cycles| && cycles[i] == cycle;
        }
      } else {
        FirstIsNewest(rest, objective, e, basis);
        forall cycle
          ensures NewestReviewed(cycles, objective, cycle) <==> NewestReviewed(rest, objective, cycle)
        {
        }
      }
    }
  }

  /** The newest cycle with a reviewed occurrence governs, and every occurrence in it must be closed. */
  lemma {:induction false} ReviewedCompleteExactly(cycles: seq<Cycle>, objective: string, e: Evidence, basis: Option<Basis>)
    requires KeysDiffer(cycles, (cycle: Cycle) => -cycle.number)
    ensures ReviewedComplete(cycles, objective, e, basis) <==>
      exists cycle :: NewestReviewed(cycles, objective, cycle) && AllClosed(cycle, objective, e, basis)
  {
    var key := (cycle: Cycle) => -cycle.number;
    SortIsStable(cycles, key);
    DistinctStrict(cycles, key);
    SameElements(NewestFirst(cycles), cycles);
    FirstIsNewest(NewestFirst(cycles), objective, e, basis);
    forall cycle
      ensures NewestReviewed(cycles, objective, cycle) <==> NewestReviewed(NewestFirst(cycles), objective, cycle)
    {
    }
  }
}
