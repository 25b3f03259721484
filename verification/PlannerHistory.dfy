/** What earlier cycles finished and left open, said of the cycles themselves, and what that means for the next plan. */
module PlannerHistory {
  import opened Basics
  import opened StableSort
  import opened PlannerEvidence
  import opened PlannerReviews
  import opened PlannerLedger
  import opened ResearchStatus
  import opened Planner

  // ----- what one cycle says

  /** The cycle ended. */
  predicate Over(cycle: Cycle) {
    cycle.status == CycleStatus.Completed || cycle.status == Blocked || cycle.status == Failed
  }

  predicate Reviewed(cycle: Cycle, index: nat) {
    exists review :: review in cycle.reviews && review.index == index
  }

  /** The stripped text is among those the cycle left unresolved. */
  predicate Named(cycle: Cycle, objective: string) {
    exists text :: text in cycle.unresolved && Strip(text) == objective
  }

  /** An objective of the cycle was left open: it is named, or the cycle did not complete and named nothing. */
  predicate LeftOpen(cycle: Cycle, objective: string) {
    Named(cycle, objective) || (cycle.status != CycleStatus.Completed && cycle.unresolved == [])
  }

  /** The objective with its basis stands at the index; without a recorded basis it is that of an incomplete cycle. */
  predicate Stands(cycle: Cycle, index: nat, objective: string, basis: Basis) {
    && index < |cycle.objectives| && Strip(cycle.objectives[index]) == objective
    && if index < |cycle.planningBasis| then basis == cycle.planningBasis[index]
       else basis == Basis(IncompleteCycle, None, None, None, [], [], None)
  }

  /** The cycle opens the occurrence again: by a review, or because it left the objective open. */
  predicate Reopens(cycle: Cycle, index: nat, objective: string) {
    Reviewed(cycle, index) || LeftOpen(cycle, objective)
  }

  predicate Finishes(cycle: Cycle, index: nat, objective: string) {
    cycle.status == CycleStatus.Completed && !Reopens(cycle, index, objective)
  }

  /** The cycle finishes or reopens the occurrence. */
  predicate Speaks(cycle: Cycle, index: nat, objective: string, basis: Basis) {
    Stands(cycle, index, objective, basis) && (Reopens(cycle, index, objective) || Finishes(cycle, index, objective))
  }

  lemma {:induction false} ReviewedIsLatest(reviews: seq<Review>, index: nat)
    ensures LatestReview(reviews, index).Some? <==> exists review :: review in reviews && review.index == index
  {
    if reviews != [] {
      var n := |reviews| - 1;
      ReviewedIsLatest(reviews[..n], index);
      assert reviews == reviews[..n] + [reviews[n]];
      assert reviews[n] in reviews;
    }
  }

  lemma {:induction false} UnresolvedIsOpen(cycle: Cycle, index: nat)
    requires index < |cycle.objectives|
    ensures Strip(cycle.objectives[index]) in UnresolvedOf(cycle) <==> LeftOpen(cycle, Strip(cycle.objectives[index]))
  {
    assert cycle.objectives[index] in cycle.objectives;
  }

  /** The event of one occurrence, in these terms. */
  lemma {:induction false} EventSays(cycle: Cycle, index: nat, objective: string, basis: Basis)
    requires Stands(cycle, index, objective, basis)
    ensures EventAt(cycle, index) ==
      if Reopens(cycle, index, objective) then [Reopened(objective, basis)]
      else if Finishes(cycle, index, objective) then [Finished(objective, basis)] else []
  {
    ReviewedIsLatest(cycle.reviews, index);
    UnresolvedIsOpen(cycle, index);
  }

  // ----- identities

  /** Some occurrence of the identity from an index on. */
  ghost predicate SpeaksOf(cycle: Cycle, from: nat, to: nat, identity: Identity) {
    exists k: nat, objective, basis ::
      from <= k < to && Speaks(cycle, k, objective, basis) && IdentityOf(objective, basis) == identity
  }

  /** The last occurrence of the identity among the first ones is finished. */
  ghost predicate FinishesBefore(cycle: Cycle, n: nat, identity: Identity) {
    exists k: nat, objective, basis ::
      k < n && Stands(cycle, k, objective, basis) && Finishes(cycle, k, objective) && IdentityOf(objective, basis) == identity
      && !SpeaksOf(cycle, k + 1, n, identity)
  }

  lemma {:induction false} SpeaksStep(cycle: Cycle, from: nat, n: nat, identity: Identity)
    requires from <= n < |cycle.objectives|
    ensures var objective := Strip(cycle.objectives[n]); var basis := BasisAt(cycle, n);
      SpeaksOf(cycle, from, n + 1, identity) <==>
        SpeaksOf(cycle, from, n, identity) || (Speaks(cycle, n, objective, basis) && IdentityOf(objective, basis) == identity)
  {
    var objective, basis := Strip(cycle.objectives[n]), BasisAt(cycle, n);
    if SpeaksOf(cycle, from, n + 1, identity) {
      var k: nat, o, b :| from <= k < n + 1 && Speaks(cycle, k, o, b) && IdentityOf(o, b) == identity;
      assert k == n ==> o == objective && b == basis;
    }
    if SpeaksOf(cycle, from, n, identity) {
      var k: nat, o, b :| from <= k < n && Speaks(cycle, k, o, b) && IdentityOf(o, b) == identity;
      assert from <= k < n + 1;
    }
  }

  lemma {:induction false} FinishesStep(cycle: Cycle, n: nat, identity: Identity)
    requires n < |cycle.objectives|
    ensures var objective := Strip(cycle.objectives[n]); var basis := BasisAt(cycle, n);
      FinishesBefore(cycle, n + 1, identity) <==>
        if Speaks(cycle, n, objective, basis) && IdentityOf(objective, basis) == identity then Finishes(cycle, n, objective)
        else FinishesBefore(cycle, n, identity)
  {
    var objective, basis := Strip(cycle.objectives[n]), BasisAt(cycle, n);
    assert Stands(cycle, n, objective, basis);
    assert !SpeaksOf(cycle, n + 1, n + 1, identity);
    if FinishesBefore(cycle, n + 1, identity) {
      var k: nat, o, b :| k < n + 1 && Stands(cycle, k, o, b) && Finishes(cycle, k, o) && IdentityOf(o, b) == identity
        && !SpeaksOf(cycle, k + 1, n + 1, identity);
      if k < n {
        SpeaksStep(cycle, k + 1, n, identity);
      }
    }
    if FinishesBefore(cycle, n, identity) {
      var k: nat, o, b :| k < n && Stands(cycle, k, o, b) && Finishes(cycle, k, o) && IdentityOf(o, b) == identity
        && !SpeaksOf(cycle, k + 1, n, identity);
      SpeaksStep(cycle, k + 1, n, identity);
      assert !SpeaksOf(cycle, k + 1, n + 1, identity) ==> FinishesBefore(cycle, n + 1, identity);
    }
  }

  lemma {:induction false} ReplayEvents(past: seq<Event>, cycle: Cycle, n: nat)
    requires n < |cycle.objectives|
    ensures Replay(past + EventsUpTo(cycle, n + 1)) == ApplyAll(Replay(past + EventsUpTo(cycle, n)), EventAt(cycle, n))
  {
    assert EventsUpTo(cycle, n + 1) == EventsUpTo(cycle, n) + EventAt(cycle, n);
    Regroup(past, EventsUpTo(cycle, n), EventAt(cycle, n));
    ReplayAll(past + EventsUpTo(cycle, n), EventAt(cycle, n));
  }

  /** The completed identities after the first objectives of a cycle. */
  lemma {:induction false} CompletedUpTo(past: seq<Event>, cycle: Cycle, n: nat, identity: Identity)
    requires n <= |cycle.objectives|
    ensures identity in Replay(past + EventsUpTo(cycle, n)).completed <==>
      FinishesBefore(cycle, n, identity) || (!SpeaksOf(cycle, 0, n, identity) && identity in Replay(past).completed)
  {
    if n == 0 {
      Regroup(past, [], []);
    } else {
      var k := n - 1;
      var objective, basis := Strip(cycle.objectives[k]), BasisAt(cycle, k);
      CompletedUpTo(past, cycle, k, identity);
      ReplayEvents(past, cycle, k);
      EventSays(cycle, k, objective, basis);
      FinishesStep(cycle, k, identity);
      SpeaksStep(cycle, 0, k, identity);
    }
  }

  ghost predicate SpeaksIn(cycle: Cycle, identity: Identity) {
    SpeaksOf(cycle, 0, |cycle.objectives|, identity)
  }

  /** The last occurrence of the identity that the cycle speaks of is finished. */
  ghost predicate FinishedIn(cycle: Cycle, identity: Identity) {
    FinishesBefore(cycle, |cycle.objectives|, identity)
  }

  lemma {:induction false} CompletedAfter(past: seq<Event>, cycle: Cycle, identity: Identity)
    ensures identity in Replay(past + EventsOf(cycle)).completed <==>
      FinishedIn(cycle, identity) || (!SpeaksIn(cycle, identity) && identity in Replay(past).completed)
  {
    var listed, lefts := EventsUpTo(cycle, |cycle.objectives|), LeftOf(cycle, cycle.unresolved);
    CompletedUpTo(past, cycle, |cycle.objectives|, identity);
    Regroup(past, listed, lefts);
    ReplayAll(past + listed, lefts);
    OutstandingIsLast(past + listed, "");
    LeftEntries(Replay(past + listed), cycle, cycle.unresolved);
  }

  /** A cycle that is over and, if any is newer, the newest one to say something. */
  ghost predicate LastToSpeak(cycles: seq<Cycle>, cycle: Cycle, says: Cycle -> bool) {
    && cycle in cycles && Over(cycle) && says(cycle)
    && forall other | other in cycles && Over(other) && says(other) :: other.number <= cycle.number
  }

  ghost predicate Increasing(cycles: seq<Cycle>) {
    forall i, j | 0 <= i < j < |cycles| :: cycles[i].number < cycles[j].number
  }

  lemma {:induction false} LastOfIncreasing(cycles: seq<Cycle>, says: Cycle -> bool, cycle: Cycle)
    requires Increasing(cycles) && cycles != []
    ensures var n := |cycles| - 1; var last := cycles[n];
      LastToSpeak(cycles, cycle, says) <==>
        if Over(last) && says(last) then cycle == last else LastToSpeak(cycles[..n], cycle, says)
  {
    var n := |cycles| - 1;
    var last := cycles[n];
    assert cycles == cycles[..n] + [last];
    forall other | other in cycles[..n]
      ensures other.number < last.number
    {
      var i :| 0 <= i < n && cycles[i] == other;
    }
  }

  lemma {:induction false} CompletedByOrder(cycles: seq<Cycle>, identity: Identity)
    requires Increasing(cycles)
    ensures identity in Replay(EventsOfAll(cycles)).completed <==>
      exists cycle :: LastToSpeak(cycles, cycle, (c: Cycle) => SpeaksIn(c, identity)) && FinishedIn(cycle, identity)
  {
    if cycles != [] {
      var n := |cycles| - 1;
      var last := cycles[n];
      var says := (c: Cycle) => SpeaksIn(c, identity);
      CompletedByOrder(cycles[..n], identity);
      forall cycle
        ensures LastToSpeak(cycles, cycle, says) <==>
          if Over(last) && says(last) then cycle == last else LastToSpeak(cycles[..n], cycle, says)
      {
        LastOfIncreasing(cycles, says, cycle);
      }
      if Over(last) {
        CompletedAfter(EventsOfAll(cycles[..n]), last, identity);
        FinishedSpeaks(last, identity);
      } else {
        Regroup(EventsOfAll(cycles[..n]), [], []);
      }
    }
  }

  lemma {:induction false} FinishedSpeaks(cycle: Cycle, identity: Identity)
    ensures FinishedIn(cycle, identity) ==> SpeaksIn(cycle, identity)
  {
    if FinishedIn(cycle, identity) {
      var k: nat, o, b :| k < |cycle.objectives| && Stands(cycle, k, o, b) && Finishes(cycle, k, o) && IdentityOf(o, b) == identity
        && !SpeaksOf(cycle, k + 1, |cycle.objectives|, identity);
      assert Speaks(cycle, k, o, b);
    }
  }

  predicate NumbersDiffer(cycles: seq<Cycle>) {
    forall i, j | 0 <= i < j < |cycles| :: cycles[i].number != cycles[j].number
  }

  lemma {:induction false} OldestFirstIncreases(cycles: seq<Cycle>)
    requires NumbersDiffer(cycles)
    ensures Increasing(OldestFirst(cycles)) && forall cycle :: cycle in OldestFirst(cycles) <==> cycle in cycles
  {
    var key := (cycle: Cycle) => cycle.number;
    SortIsStable(cycles, key);
    DistinctStrict(cycles, key);
    SameElements(OldestFirst(cycles), cycles);
  }

  lemma {:induction false} SameLastToSpeak(a: seq<Cycle>, b: seq<Cycle>, cycle: Cycle, says: Cycle -> bool)
    requires forall c :: c in a <==> c in b
    ensures LastToSpeak(a, cycle, says) <==> LastToSpeak(b, cycle, says)
  {
  }

  /** An identity counts as completed exactly when, in the newest ended cycle that finishes or reopens it, its last such
      occurrence is finished: the cycle completed, did not review it and did not leave it unresolved. */
  lemma {:induction false} CompletedByCycles(cycles: seq<Cycle>, identity: Identity)
    requires NumbersDiffer(cycles)
    ensures identity in Replay(EventsOfAll(OldestFirst(cycles))).completed <==>
      exists cycle :: LastToSpeak(cycles, cycle, (c: Cycle) => SpeaksIn(c, identity)) && FinishedIn(cycle, identity)
  {
    var says := (c: Cycle) => SpeaksIn(c, identity);
    OldestFirstIncreases(cycles);
    CompletedByOrder(OldestFirst(cycles), identity);
    forall cycle
      ensures LastToSpeak(OldestFirst(cycles), cycle, says) <==> LastToSpeak(cycles, cycle, says)
    {
      SameLastToSpeak(OldestFirst(cycles), cycles, cycle, says);
    }
  }

  // ----- open objectives

  /** The cycle speaks of the objective at an index in the range. */
  ghost predicate MentionsFrom(cycle: Cycle, from: nat, to: nat, objective: string) {
    exists k: nat, basis :: from <= k < to && Speaks(cycle, k, objective, basis)
  }

  /** The last of the first occurrences that the cycle speaks of reopens the objective, with that basis. */
  ghost predicate OpensBefore(cycle: Cycle, n: nat, objective: string, basis: Basis) {
    exists k: nat :: k < n && Stands(cycle, k, objective, basis) && Reopens(cycle, k, objective)
      && !MentionsFrom(cycle, k + 1, n, objective)
  }

  lemma {:induction false} MentionsStep(cycle: Cycle, from: nat, n: nat, objective: string)
    requires from <= n < |cycle.objectives|
    ensures MentionsFrom(cycle, from, n + 1, objective) <==>
      MentionsFrom(cycle, from, n, objective) || Speaks(cycle, n, objective, BasisAt(cycle, n))
  {
    if MentionsFrom(cycle, from, n + 1, objective) {
      var k: nat, b :| from <= k < n + 1 && Speaks(cycle, k, objective, b);
      assert k == n ==> b == BasisAt(cycle, n);
    }
    if MentionsFrom(cycle, from, n, objective) {
      var k: nat, b :| from <= k < n && Speaks(cycle, k, objective, b);
      assert from <= k < n + 1;
    }
  }

  lemma {:induction false} OpensStep(cycle: Cycle, n: nat, objective: string, basis: Basis)
    requires n < |cycle.objectives|
    ensures var last := BasisAt(cycle, n);
      OpensBefore(cycle, n + 1, objective, basis) <==>
        if Speaks(cycle, n, objective, last) then Reopens(cycle, n, objective) && basis == last
        else OpensBefore(cycle, n, objective, basis)
  {
    var last := BasisAt(cycle, n);
    assert !MentionsFrom(cycle, n + 1, n + 1, objective);
    if OpensBefore(cycle, n + 1, objective, basis) {
      var k: nat :| k < n + 1 && Stands(cycle, k, objective, basis) && Reopens(cycle, k, objective)
        && !MentionsFrom(cycle, k + 1, n + 1, objective);
      if k < n {
        MentionsStep(cycle, k + 1, n, objective);
      }
    }
    if OpensBefore(cycle, n, objective, basis) {
      var k: nat :| k < n && Stands(cycle, k, objective, basis) && Reopens(cycle, k, objective)
        && !MentionsFrom(cycle, k + 1, n, objective);
      MentionsStep(cycle, k + 1, n, objective);
      assert !MentionsFrom(cycle, k + 1, n + 1, objective) ==> OpensBefore(cycle, n + 1, objective, basis);
    }
  }

  lemma {:induction false} ApplyEntries(ledger: Ledger, event: Event, entry: (string, Basis))
    requires UniqueKeys(ledger.outstanding)
    ensures entry in Apply(ledger, event).outstanding <==>
      if event.objective == entry.0 then !event.Finished? && entry.1 == (if event.Left? then Plain(IncompleteCycle) else event.basis)
      else entry in ledger.outstanding
  {
    match event
    case Finished(o, _) => DropEntries(ledger.outstanding, o, entry);
    case Reopened(o, b) => PutEntries(ledger.outstanding, o, b, entry);
    case Left(o) => PutEntries(ledger.outstanding, o, Plain(IncompleteCycle), entry);
  }

  /** The open objectives after the first objectives of a cycle. */
  lemma {:induction false} OpenUpTo(past: seq<Event>, cycle: Cycle, n: nat, objective: string, basis: Basis)
    requires n <= |cycle.objectives|
    ensures (objective, basis) in Replay(past + EventsUpTo(cycle, n)).outstanding <==>
      || OpensBefore(cycle, n, objective, basis)
      || (!MentionsFrom(cycle, 0, n, objective) && (objective, basis) in Replay(past).outstanding)
  {
    if n == 0 {
      Regroup(past, [], []);
    } else {
      var k := n - 1;
      var text, last := Strip(cycle.objectives[k]), BasisAt(cycle, k);
      var ledger := Replay(past + EventsUpTo(cycle, k));
      OpenUpTo(past, cycle, k, objective, basis);
      ReplayEvents(past, cycle, k);
      EventSays(cycle, k, text, last);
      OutstandingIsLast(past + EventsUpTo(cycle, k), objective);
      if EventAt(cycle, k) != [] {
        ApplyEntries(ledger, EventAt(cycle, k)[0], (objective, basis));
      }
      OpensStep(cycle, k, objective, basis);
      MentionsStep(cycle, 0, k, objective);
    }
  }

  /** An unresolved text that is none of the cycle's objectives. */
  predicate Unlisted(cycle: Cycle, objective: string) {
    objective != "" && Named(cycle, objective) && forall text | text in cycle.objectives :: Strip(text) != objective
  }

  ghost predicate MentionedIn(cycle: Cycle, objective: string) {
    Unlisted(cycle, objective) || MentionsFrom(cycle, 0, |cycle.objectives|, objective)
  }

  /** The last thing the cycle says of the objective leaves it open, with that basis. */
  ghost predicate OpenedIn(cycle: Cycle, objective: string, basis: Basis) {
    if Unlisted(cycle, objective) then basis == Basis(IncompleteCycle, None, None, None, [], [], None)
    else OpensBefore(cycle, |cycle.objectives|, objective, basis)
  }

  lemma {:induction false} UnlistedIsLeft(cycle: Cycle, objective: string)
    ensures LeftOver(cycle, cycle.unresolved, objective) <==> Unlisted(cycle, objective)
  {
  }

  lemma {:induction false} OpenAfter(past: seq<Event>, cycle: Cycle, objective: string, basis: Basis)
    ensures (objective, basis) in Replay(past + EventsOf(cycle)).outstanding <==>
      OpenedIn(cycle, objective, basis) || (!MentionedIn(cycle, objective) && (objective, basis) in Replay(past).outstanding)
  {
    var listed, lefts := EventsUpTo(cycle, |cycle.objectives|), LeftOf(cycle, cycle.unresolved);
    OpenUpTo(past, cycle, |cycle.objectives|, objective, basis);
    Regroup(past, listed, lefts);
    ReplayAll(past + listed, lefts);
    OutstandingIsLast(past + listed, "");
    LeftEntries(Replay(past + listed), cycle, cycle.unresolved);
    UnlistedIsLeft(cycle, objective);
    assert (objective, basis).0 == objective;
  }

  lemma {:induction false} OpenByOrder(cycles: seq<Cycle>, objective: string, basis: Basis)
    requires Increasing(cycles)
    ensures (objective, basis) in Replay(EventsOfAll(cycles)).outstanding <==>
      exists cycle :: LastToSpeak(cycles, cycle, (c: Cycle) => MentionedIn(c, objective)) && OpenedIn(cycle, objective, basis)
  {
    if cycles != [] {
      var n := |cycles| - 1;
      var last := cycles[n];
      var says := (c: Cycle) => MentionedIn(c, objective);
      OpenByOrder(cycles[..n], objective, basis);
      forall cycle
        ensures LastToSpeak(cycles, cycle, says) <==>
          if Over(last) && says(last) then cycle == last else LastToSpeak(cycles[..n], cycle, says)
      {
        LastOfIncreasing(cycles, says, cycle);
      }
      if Over(last) {
        OpenAfter(EventsOfAll(cycles[..n]), last, objective, basis);
        OpenedIsMentioned(last, objective, basis);
      } else {
        Regroup(EventsOfAll(cycles[..n]), [], []);
      }
    }
  }

  lemma {:induction false} OpenedIsMentioned(cycle: Cycle, objective: string, basis: Basis)
    ensures OpenedIn(cycle, objective, basis) ==> MentionedIn(cycle, objective)
  {
    if OpenedIn(cycle, objective, basis) && !Unlisted(cycle, objective) {
      var k: nat :| k < |cycle.objectives| && Stands(cycle, k, objective, basis) && Reopens(cycle, k, objective)
        && !MentionsFrom(cycle, k + 1, |cycle.objectives|, objective);
      assert Speaks(cycle, k, objective, basis);
    }
  }

  /** An objective is open with a basis exactly when, in the newest ended cycle that mentions it, the last thing said of it is
      a review, that it was left unresolved, or that it is an unresolved text the cycle does not list. */
  lemma {:induction false} OpenByCycles(cycles: seq<Cycle>, objective: string, basis: Basis)
    requires NumbersDiffer(cycles)
    ensures (objective, basis) in Replay(EventsOfAll(OldestFirst(cycles))).outstanding <==>
      exists cycle :: LastToSpeak(cycles, cycle, (c: Cycle) => MentionedIn(c, objective)) && OpenedIn(cycle, objective, basis)
  {
    var says := (c: Cycle) => MentionedIn(c, objective);
    OldestFirstIncreases(cycles);
    OpenByOrder(OldestFirst(cycles), objective, basis);
    forall cycle
      ensures LastToSpeak(OldestFirst(cycles), cycle, says) <==> LastToSpeak(cycles, cycle, says)
    {
      SameLastToSpeak(OldestFirst(cycles), cycles, cycle, says);
    }
  }

  // ----- completed reviews

  ghost predicate LastAt(reviews: seq<Review>, index: nat, k: nat) {
    k < |reviews| && reviews[k].index == index && forall later | k < later < |reviews| :: reviews[later].index != index
  }

  /** The last review of the index in the list. */
  ghost predicate LastReview(reviews: seq<Review>, index: nat, review: Review) {
    exists k: nat :: LastAt(reviews, index, k) && reviews[k] == review
  }

  lemma {:induction false} LastReviewIsLatest(reviews: seq<Review>, index: nat, review: Review)
    ensures LastReview(reviews, index, review) <==> LatestReview(reviews, index) == Some(review)
  {
    if reviews != [] {
      var n := |reviews| - 1;
      if reviews[n].index == index {
        assert LastAt(reviews, index, n);
      } else {
        LastReviewIsLatest(reviews[..n], index, review);
        assert forall k: nat :: LastAt(reviews, index, k) <==> LastAt(reviews[..n], index, k);
      }
    }
  }

  /** The occurrence has a last review that completes it, whose evidence and references are as they were, and which is about
      this basis, if one is given. */
  ghost predicate ClosedAt(cycle: Cycle, index: nat, e: Evidence, basis: Option<Basis>) {
    exists review :: LastReview(cycle.reviews, index, review)
      && review.completed && ReviewIsCurrent(review, e) && (basis.Some? ==> review.basis == WithEvidence(basis.value, e))
  }

  /** The cycle reviewed some occurrence of the objective. */
  ghost predicate ReviewedIn(cycle: Cycle, objective: string) {
    exists i: nat :: i < |cycle.objectives| && Strip(cycle.objectives[i]) == Strip(objective) && Reviewed(cycle, i)
  }

  /** An objective counts as reviewed exactly when, in the newest cycle that reviewed an occurrence of it, every occurrence is
      closed. */
  lemma {:induction false} ReviewedByCycles(cycles: seq<Cycle>, objective: string, e: Evidence, basis: Option<Basis>)
    requires NumbersDiffer(cycles)
    ensures ReviewedComplete(cycles, objective, e, basis) <==>
      exists cycle :: cycle in cycles && ReviewedIn(cycle, objective)
        && (forall other | other in cycles && ReviewedIn(other, objective) :: other.number <= cycle.number)
        && forall i: nat | i < |cycle.objectives| && Strip(cycle.objectives[i]) == Strip(objective) :: ClosedAt(cycle, i, e, basis)
  {
    ReviewedCompleteExactly(cycles, objective, e, basis);
    forall cycle
      ensures HasReviewed(cycle, objective) <==> ReviewedIn(cycle, objective)
      ensures AllClosed(cycle, objective, e, basis) <==>
        forall i: nat | i < |cycle.objectives| && Strip(cycle.objectives[i]) == Strip(objective) :: ClosedAt(cycle, i, e, basis)
    {
      ReviewedInExactly(cycle, objective);
      AllClosedExactly(cycle, objective, e, basis);
    }
  }

  lemma {:induction false} ReviewedInExactly(cycle: Cycle, objective: string)
    ensures HasReviewed(cycle, objective) <==> ReviewedIn(cycle, objective)
  {
    forall i: nat
      ensures LatestReview(cycle.reviews, i).Some? <==> Reviewed(cycle, i)
    {
      ReviewedIsLatest(cycle.reviews, i);
    }
    if i: nat :| i < |cycle.objectives| && Strip(cycle.objectives[i]) == Strip(objective) && Reviewed(cycle, i) {
      assert Occurs(cycle, objective, i);
    }
  }

  lemma {:induction false} ClosedAtExactly(cycle: Cycle, index: nat, e: Evidence, basis: Option<Basis>)
    ensures Closes(cycle, index, e, basis) <==> ClosedAt(cycle, index, e, basis)
  {
    var latest := LatestReview(cycle.reviews, index);
    if latest.Some? {
      LastReviewIsLatest(cycle.reviews, index, latest.value);
    }
    if ClosedAt(cycle, index, e, basis) {
      var review :| LastReview(cycle.reviews, index, review)
        && review.completed && ReviewIsCurrent(review, e) && (basis.Some? ==> review.basis == WithEvidence(basis.value, e));
      LastReviewIsLatest(cycle.reviews, index, review);
    }
  }

  lemma {:induction false} AllClosedExactly(cycle: Cycle, objective: string, e: Evidence, basis: Option<Basis>)
    ensures AllClosed(cycle, objective, e, basis) <==>
      forall i: nat | i < |cycle.objectives| && Strip(cycle.objectives[i]) == Strip(objective) :: ClosedAt(cycle, i, e, basis)
  {
    forall i: nat
      ensures Closes(cycle, i, e, basis) <==> ClosedAt(cycle, i, e, basis)
    {
      ClosedAtExactly(cycle, i, e, basis);
    }
    forall i: nat
      ensures Occurs(cycle, objective, i) <==> i < |cycle.objectives| && Strip(cycle.objectives[i]) == Strip(objective)
    {
    }
  }

  // ----- what the planner makes of it

  /** The newest of the cycles that are over. */
  ghost predicate NewestOver(cycles: seq<Cycle>, cycle: Cycle) {
    cycle in cycles && Over(cycle) && forall other | other in cycles && Over(other) :: other.number <= cycle.number
  }

  /** The situation the planner is in after these cycles. */
  ghost predicate After(s: Situation) {
    NumbersDiffer(s.cycles) && s.ledger == Replay(EventsOfAll(OldestFirst(s.cycles)))
  }

  lemma {:induction false} LastMention(cycle: Cycle, n: nat, objective: string) returns (k: nat, basis: Basis)
    requires n <= |cycle.objectives| && LeftOpen(cycle, objective)
    requires exists k: nat :: k < n && Strip(cycle.objectives[k]) == objective
    ensures OpensBefore(cycle, n, objective, basis)
  {
    var last := n - 1;
    if Strip(cycle.objectives[last]) == objective {
      k, basis := last, BasisAt(cycle, last);
      assert Stands(cycle, last, objective, basis) && !MentionsFrom(cycle, last + 1, n, objective);
    } else {
      k, basis := LastMention(cycle, last, objective);
      OpensStep(cycle, last, objective, basis);
    }
  }

  /** Whatever the newest ended cycle left unresolved is a candidate again. */
  lemma {:induction false} UnresolvedIsCandidate(s: Situation, cycle: Cycle, objective: string)
    requires After(s) && NewestOver(s.cycles, cycle) && objective != "" && Named(cycle, objective)
    ensures exists c :: c in s.Candidates() && c.objective == objective
  {
    var basis := Plain(IncompleteCycle);
    if !Unlisted(cycle, objective) {
      var text :| text in cycle.objectives && Strip(text) == objective;
      var i :| 0 <= i < |cycle.objectives| && cycle.objectives[i] == text;
      var k, b := LastMention(cycle, |cycle.objectives|, objective);
      basis := b;
    }
    assert OpenedIn(cycle, objective, basis);
    OpenedIsMentioned(cycle, objective, basis);
    assert LastToSpeak(s.cycles, cycle, (c: Cycle) => MentionedIn(c, objective));
    OpenByCycles(s.cycles, objective, basis);
    if forall c | c in s.derived :: c.objective != objective {
      LeftoverMembers(s, s.ledger.outstanding, Candidate(1, objective, basis.(fingerprint := None)));
      assert (objective, basis) in s.ledger.outstanding;
      assert Candidate(1, objective, basis.(fingerprint := None)) in s.Candidates();
    } else {
      var c :| c in s.derived && c.objective == objective;
      assert c in s.Candidates();
    }
  }

  /** What the newest ended cycle finished, without reviewing it, is not brought up again unless the evidence suggests it. */
  lemma {:induction false} FinishedIsNoLeftover(s: Situation, cycle: Cycle, objective: string)
    requires After(s) && NewestOver(s.cycles, cycle) && cycle.status == CycleStatus.Completed
    requires exists i: nat :: i < |cycle.objectives| && Strip(cycle.objectives[i]) == objective
    requires !Named(cycle, objective)
    requires forall i: nat | i < |cycle.objectives| && Strip(cycle.objectives[i]) == objective :: !Reviewed(cycle, i)
    ensures forall c | c in s.Leftovers(s.ledger.outstanding) :: c.objective != objective
  {
    forall c | c in s.Leftovers(s.ledger.outstanding)
      ensures c.objective != objective
    {
      LeftoverMembers(s, s.ledger.outstanding, c);
      var entry :| entry in s.ledger.outstanding && c.objective == entry.0;
      if entry.0 == objective {
        NothingOpen(s, cycle, objective, entry.1);
      }
    }
  }

  lemma {:induction false} NothingOpen(s: Situation, cycle: Cycle, objective: string, basis: Basis)
    requires After(s) && NewestOver(s.cycles, cycle) && cycle.status == CycleStatus.Completed && !Named(cycle, objective)
    requires exists i: nat :: i < |cycle.objectives| && Strip(cycle.objectives[i]) == objective
    requires forall i: nat | i < |cycle.objectives| && Strip(cycle.objectives[i]) == objective :: !Reviewed(cycle, i)
    ensures (objective, basis) !in s.ledger.outstanding
  {
    OpenByCycles(s.cycles, objective, basis);
    var i: nat :| i < |cycle.objectives| && Strip(cycle.objectives[i]) == objective;
    assert Speaks(cycle, i, objective, BasisAt(cycle, i));
    assert MentionedIn(cycle, objective);
    var says := (c: Cycle) => MentionedIn(c, objective);
    forall other | LastToSpeak(s.cycles, other, says)
      ensures !OpenedIn(other, objective, basis)
    {
      SameNumberSame(s.cycles, cycle, other);
    }
  }

  lemma {:induction false} SameNumberSame(cycles: seq<Cycle>, a: Cycle, b: Cycle)
    requires NumbersDiffer(cycles) && a in cycles && b in cycles && a.number == b.number
    ensures a == b
  {
    var i :| 0 <= i < |cycles| && cycles[i] == a;
    var j :| 0 <= j < |cycles| && cycles[j] == b;
    assert !(i < j) && !(j < i);
  }

  /** What the planner chooses from: what the evidence suggests, and what was left open and is not among it. */
  lemma {:induction false} CandidatesExactly(s: Situation, c: Candidate)
    ensures c in s.Candidates() <==>
      || c in s.derived
      || (c.priority == 1 && c.objective != "" && c.basis.fingerprint == None
          && (forall d | d in s.derived :: d.objective != c.objective)
          && exists basis :: (c.objective, basis) in s.ledger.outstanding && basis.(fingerprint := None) == c.basis)
  {
    LeftoverMembers(s, s.ledger.outstanding, c);
    if basis :| (c.objective, basis) in s.ledger.outstanding && basis.(fingerprint := None) == c.basis {
      var entry := (c.objective, basis);
      assert entry in s.ledger.outstanding;
    }
  }

  ghost predicate Outstanding(s: Situation, c: Candidate) {
    exists basis :: (c.objective, basis) in s.ledger.outstanding
  }

  /** Candidates above the first priority come in order; then those of first priority and whatever was left open; then the
      rest in order. */
  ghost predicate NoLater(s: Situation, a: Candidate, b: Candidate) {
    if b.priority < 1 then a.priority <= b.priority
    else a.priority <= 1 || Outstanding(s, a) || (!Outstanding(s, b) && a.priority <= b.priority)
  }

  lemma {:induction false} RankedExactly(s: Situation, a: Candidate, b: Candidate)
    ensures s.Priority(a) <= s.Priority(b) <==> NoLater(s, a, b)
  {
    OutstandingKeys(s, a);
    OutstandingKeys(s, b);
  }

  lemma {:induction false} OutstandingKeys(s: Situation, c: Candidate)
    ensures Outstanding(s, c) <==> Keys(s.ledger.outstanding, c.objective)
  {
    if i :| 0 <= i < |s.ledger.outstanding| && s.ledger.outstanding[i].0 == c.objective {
      assert (c.objective, s.ledger.outstanding[i].1) in s.ledger.outstanding;
    }
  }

  /** No current review closes the candidate, and no cycle finished it under its present evidence. */
  predicate Due(s: Situation, c: Candidate) {
    && !ReviewedComplete(s.cycles, c.objective, s.evidence, Some(c.basis))
    && IdentityOf(c.objective, WithEvidence(c.basis, s.evidence)) !in s.ledger.completed
  }

  predicate SameObjective(s: Situation, a: Candidate, b: Candidate) {
    IdentityOf(a.objective, WithEvidence(a.basis, s.evidence)) == IdentityOf(b.objective, WithEvidence(b.basis, s.evidence))
  }

  /** The candidate was chosen, the same objective no later was, or there were three no later. */
  ghost predicate Considered(s: Situation, chosen: seq<Candidate>, c: Candidate) {
    || (exists d :: d in chosen && SameObjective(s, d, c) && NoLater(s, d, c))
    || (|chosen| == 3 && forall d | d in chosen :: NoLater(s, d, c))
  }

  /** The plan takes at most three different objectives that are due, in order, and passes over none without cause. */
  lemma {:induction false} ChosenExactly(s: Situation)
    ensures var chosen := Chosen(s);
      && |chosen| <= 3
      && (forall c | c in chosen :: c in s.Candidates() && Due(s, c))
      && (forall a, b | 0 <= a < b < |chosen| :: !SameObjective(s, chosen[a], chosen[b]) && NoLater(s, chosen[a], chosen[b]))
      && (forall c {:trigger Considered(s, chosen, c)} | c in s.Candidates() && Due(s, c) :: Considered(s, chosen, c))
  {
    var chosen, j := Chosen(s), s.Judgement();
    ChosenIsBest(s);
    forall a, b | 0 <= a < b < |chosen|
      ensures !SameObjective(s, chosen[a], chosen[b]) && NoLater(s, chosen[a], chosen[b])
    {
      assert j.identity(chosen[a]) != j.identity(chosen[b]) && j.priority(chosen[a]) <= j.priority(chosen[b]);
      RankedExactly(s, chosen[a], chosen[b]);
    }
    forall c | c in s.Candidates() && Due(s, c)
      ensures Considered(s, chosen, c)
    {
      assert j.eligible(c) && Answered(j, chosen, c);
      forall d | d in chosen
        ensures s.Priority(d) <= s.Priority(c) <==> NoLater(s, d, c)
      {
        RankedExactly(s, d, c);
      }
      if !FullBefore(j, chosen, j.priority(c)) {
        var d :| d in chosen && Represents(j, d, c);
        assert SameObjective(s, d, c) && NoLater(s, d, c);
      }
    }
  }

  /** The plan lists the chosen objectives, each with its basis under the present evidence. With none, it asks for a review of
      the stopping criteria, and with that completed it is empty. */
  lemma {:induction false} PlanExactly(s: Situation)
    ensures var plan, chosen := PlanFor(s, Chosen(s)), Chosen(s);
      && |plan.objectives| == |plan.basis|
      && (chosen != [] ==>
            && |plan.objectives| == |chosen|
            && forall i | 0 <= i < |chosen| ::
                 plan.objectives[i] == chosen[i].objective && plan.basis[i] == WithEvidence(chosen[i].basis, s.evidence))
      && (chosen == [] ==>
            if ReviewedComplete(s.cycles, STOPPING, s.evidence, Some(Plain(ReviewStoppingCriteria))) then plan.objectives == []
            else plan.objectives == [STOPPING] && plan.basis == [WithEvidence(Plain(ReviewStoppingCriteria), s.evidence)])
  {
  }
}
