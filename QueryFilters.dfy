/** The filters of the GET handler: location, then start date, then end date,
    each narrowing the previous stage's list. */
module QueryFilters {
  import opened Wrappers
  import opened Sequences
  import opened Timestamps
  import opened Reviews

  /** The query-string parameters `location`, `start_date` and `end_date`; None when absent. */
  datatype Criteria = Criteria(location: Option<string>, startDate: Option<string>, endDate: Option<string>)

  /** The ValueError that `strptime` raises inside the handler. */
  datatype QueryError =
    | BadFilterDate(parameter: string, value: string)
    | BadReviewTimestamp(value: string)

  /** Python truthiness of an optional string: present and non-empty. */
  predicate Given(o: Option<string>) {
    o.Some? && o.value != ""
  }

  predicate LocationApplies(c: Criteria) {
    Given(c.location) && c.location.value in PredefinedLocations
  }

  predicate StartApplies(c: Criteria) {
    Given(c.startDate) && ParseDate(c.startDate.value).Some?
  }

  predicate EndApplies(c: Criteria) {
    Given(c.endDate) && ParseDate(c.endDate.value).Some?
  }

  /** Every date the query gives parses. */
  predicate DatesParse(c: Criteria) {
    (Given(c.startDate) ==> StartApplies(c)) && (Given(c.endDate) ==> EndApplies(c))
  }

  predicate OnOrAfter(r: Review, t: DateTime) {
    HasTimestamp(r) && NotAfter(t, TimeOf(r))
  }

  predicate OnOrBefore(r: Review, t: DateTime) {
    HasTimestamp(r) && NotAfter(TimeOf(r), t)
  }

  /** The text of the first review whose timestamp does not parse, if any. */
  function FirstUnparsable(rs: seq<Review>): (r: Option<string>)
    ensures r.None? <==> AllHaveTimestamps(rs)
    ensures r.Some? ==> exists x :: x in rs && !HasTimestamp(x) && x.timestamp == r.value
  {
    if rs == [] then None
    else if !HasTimestamp(rs[0]) then Some(rs[0].timestamp)
    else FirstUnparsable(rs[1..])
  }

  /** Stage 1: keep the reviews at `location`, but only when it is given and whitelisted. */
  function FilterByLocation(rs: seq<Review>, c: Criteria): (r: seq<Review>)
    ensures IsSubsequence(r, rs)
    ensures LocationApplies(c) ==> forall x :: x in r <==> x in rs && x.location == c.location.value
    ensures LocationApplies(c) ==> forall x: Review :: x.location == c.location.value ==> multiset(r)[x] == multiset(rs)[x]
    ensures !LocationApplies(c) ==> r == rs
  {
    if LocationApplies(c) then
      var p := (x: Review) => x.location == c.location.value;
      KeepIsSubsequence(rs, p);
      assert forall x :: multiset(Keep(rs, p))[x] == if p(x) then multiset(rs)[x] else 0 by {
        forall x { KeepCount(rs, p, x); }
      }
      Keep(rs, p)
    else
      SubsequenceReflexive(rs);
      rs
  }

  /** Stage 2: keep the reviews at or after midnight of `start_date`. */
  function FilterByStartDate(rs: seq<Review>, c: Criteria): (r: Result<seq<Review>, QueryError>)
    ensures !Given(c.startDate) ==> r == Success(rs)
    ensures Given(c.startDate) && !StartApplies(c) ==> r == Failure(BadFilterDate("start_date", c.startDate.value))
    ensures StartApplies(c) ==> (r.Success? <==> AllHaveTimestamps(rs))
    ensures r.Success? ==> IsSubsequence(r.value, rs)
    ensures r.Success? && StartApplies(c) ==>
      forall x :: x in r.value <==> x in rs && OnOrAfter(x, ParseDate(c.startDate.value).value)
    ensures r.Success? && StartApplies(c) ==>
      forall x: Review :: OnOrAfter(x, ParseDate(c.startDate.value).value) ==> multiset(r.value)[x] == multiset(rs)[x]
  {
    if !Given(c.startDate) then
      SubsequenceReflexive(rs);
      Success(rs)
    else match ParseDate(c.startDate.value)
      case None => Failure(BadFilterDate("start_date", c.startDate.value))
      case Some(start) =>
        match FirstUnparsable(rs)
        case Some(bad) => Failure(BadReviewTimestamp(bad))
        case None =>
          var p := (x: Review) => OnOrAfter(x, start);
          KeepIsSubsequence(rs, p);
          assert forall x :: multiset(Keep(rs, p))[x] == if p(x) then multiset(rs)[x] else 0 by {
            forall x { KeepCount(rs, p, x); }
          }
          Success(Keep(rs, p))
  }

  /** Stage 3: keep the reviews at or before midnight of `end_date`. */
  function FilterByEndDate(rs: seq<Review>, c: Criteria): (r: Result<seq<Review>, QueryError>)
    ensures !Given(c.endDate) ==> r == Success(rs)
    ensures Given(c.endDate) && !EndApplies(c) ==> r == Failure(BadFilterDate("end_date", c.endDate.value))
    ensures EndApplies(c) ==> (r.Success? <==> AllHaveTimestamps(rs))
    ensures r.Success? ==> IsSubsequence(r.value, rs)
    ensures r.Success? && EndApplies(c) ==>
      forall x :: x in r.value <==> x in rs && OnOrBefore(x, ParseDate(c.endDate.value).value)
    ensures r.Success? && EndApplies(c) ==>
      forall x: Review :: OnOrBefore(x, ParseDate(c.endDate.value).value) ==> multiset(r.value)[x] == multiset(rs)[x]
  {
    if !Given(c.endDate) then
      SubsequenceReflexive(rs);
      Success(rs)
    else match ParseDate(c.endDate.value)
      case None => Failure(BadFilterDate("end_date", c.endDate.value))
      case Some(end) =>
        match FirstUnparsable(rs)
        case Some(bad) => Failure(BadReviewTimestamp(bad))
        case None =>
          var p := (x: Review) => OnOrBefore(x, end);
          KeepIsSubsequence(rs, p);
          assert forall x :: multiset(Keep(rs, p))[x] == if p(x) then multiset(rs)[x] else 0 by {
            forall x { KeepCount(rs, p, x); }
          }
          Success(Keep(rs, p))
  }

  /** The three stages in the handler's order; the first error aborts the query. */
  function RunFilters(rs: seq<Review>, c: Criteria): (r: Result<seq<Review>, QueryError>)
    ensures r.Success? ==> IsSubsequence(r.value, rs)
  {
    var byLocation := FilterByLocation(rs, c);
    var byStart :- FilterByStartDate(byLocation, c);
    var r := FilterByEndDate(byStart, c);
    if r.Success? then
      SubsequenceTransitive(byStart, byLocation, rs);
      SubsequenceTransitive(r.value, byStart, rs);
      r
    else r
  }

  // ---- the pipeline as one conjunction ----

  predicate LocationOk(c: Criteria, x: Review) {
    LocationApplies(c) ==> x.location == c.location.value
  }

  predicate StartOk(c: Criteria, x: Review) {
    StartApplies(c) ==> OnOrAfter(x, ParseDate(c.startDate.value).value)
  }

  predicate EndOk(c: Criteria, x: Review) {
    EndApplies(c) ==> OnOrBefore(x, ParseDate(c.endDate.value).value)
  }

  /** A review the query selects: every applicable filter accepts it. */
  predicate Selected(c: Criteria, x: Review) {
    LocationOk(c, x) && StartOk(c, x) && EndOk(c, x)
  }

  lemma LocationStage(rs: seq<Review>, c: Criteria)
    ensures FilterByLocation(rs, c) == Keep(rs, (x: Review) => LocationOk(c, x))
  {
    var ok := (x: Review) => LocationOk(c, x);
    if LocationApplies(c) {
      KeepCongruent(rs, (x: Review) => x.location == c.location.value, ok);
    } else {
      KeepAll(rs, ok);
    }
  }

  lemma StartStage(rs: seq<Review>, c: Criteria)
    requires AllHaveTimestamps(rs) && (Given(c.startDate) ==> StartApplies(c))
    ensures FilterByStartDate(rs, c) == Success(Keep(rs, (x: Review) => StartOk(c, x)))
  {
    var ok := (x: Review) => StartOk(c, x);
    if StartApplies(c) {
      var start := ParseDate(c.startDate.value).value;
      KeepCongruent(rs, (x: Review) => OnOrAfter(x, start), ok);
    } else {
      KeepAll(rs, ok);
    }
  }

  lemma EndStage(rs: seq<Review>, c: Criteria)
    requires AllHaveTimestamps(rs) && (Given(c.endDate) ==> EndApplies(c))
    ensures FilterByEndDate(rs, c) == Success(Keep(rs, (x: Review) => EndOk(c, x)))
  {
    var ok := (x: Review) => EndOk(c, x);
    if EndApplies(c) {
      var end := ParseDate(c.endDate.value).value;
      KeepCongruent(rs, (x: Review) => OnOrBefore(x, end), ok);
    } else {
      KeepAll(rs, ok);
    }
  }

  /** Running the stages one after another selects exactly the reviews of the
      original list that satisfy all applicable filters at once, in list order. */
  lemma FiltersAreOneConjunction(rs: seq<Review>, c: Criteria)
    requires AllHaveTimestamps(rs) && DatesParse(c)
    ensures RunFilters(rs, c) == Success(Keep(rs, (x: Review) => Selected(c, x)))
  {
    var pl := (x: Review) => LocationOk(c, x);
    var ps := (x: Review) => StartOk(c, x);
    var pe := (x: Review) => EndOk(c, x);
    var pls := (x: Review) => LocationOk(c, x) && StartOk(c, x);
    var all := (x: Review) => Selected(c, x);
    var byLocation := FilterByLocation(rs, c);
    LocationStage(rs, c);
    StartStage(byLocation, c);
    var byStart := Keep(byLocation, ps);
    KeepKeep(rs, pl, ps, pls);
    assert AllHaveTimestamps(byStart);
    EndStage(byStart, c);
    KeepKeep(rs, pls, pe, all);
  }

  /** With a well-formed list, the query fails exactly when a given date does not parse,
      and the start date is checked before the end date. */
  lemma FailsOnlyOnBadDates(rs: seq<Review>, c: Criteria)
    requires AllHaveTimestamps(rs)
    ensures RunFilters(rs, c).Failure? <==> !DatesParse(c)
    ensures Given(c.startDate) && !StartApplies(c) ==>
      RunFilters(rs, c) == Failure(BadFilterDate("start_date", c.startDate.value))
    ensures (Given(c.startDate) ==> StartApplies(c)) && Given(c.endDate) && !EndApplies(c) ==>
      RunFilters(rs, c) == Failure(BadFilterDate("end_date", c.endDate.value))
  {
    if DatesParse(c) {
      FiltersAreOneConjunction(rs, c);
    } else if Given(c.startDate) ==> StartApplies(c) {
      var byLocation := FilterByLocation(rs, c);
      StartStage(byLocation, c);
    }
  }

  /** A start date later than the end date selects nothing, without error. */
  lemma StartAfterEndSelectsNothing(rs: seq<Review>, c: Criteria)
    requires AllHaveTimestamps(rs)
    requires StartApplies(c) && EndApplies(c)
    requires !NotAfter(ParseDate(c.startDate.value).value, ParseDate(c.endDate.value).value)
    ensures RunFilters(rs, c) == Success([])
  {
    FiltersAreOneConjunction(rs, c);
    var start := ParseDate(c.startDate.value).value;
    var end := ParseDate(c.endDate.value).value;
    forall x | x in rs
      ensures !Selected(c, x)
    {
      if NotAfter(start, TimeOf(x)) && NotAfter(TimeOf(x), end) {
        NotAfterIsTotalOrder(start, TimeOf(x), end);
      }
    }
    KeepNone(rs, (x: Review) => Selected(c, x));
  }

  /** Both bounds are inclusive: a review stamped exactly at midnight of `day`
      passes a start-date filter and an end-date filter of `day`, while a review
      later on `day` fails the end-date filter. */
  lemma MidnightBoundaries(rs: seq<Review>, day: string, x: Review)
    requires AllHaveTimestamps(rs) && x in rs
    requires ParseDate(day).Some?
    ensures var c := Criteria(None, Some(day), Some(day));
      && FilterByStartDate(rs, c).Success? && FilterByEndDate(rs, c).Success?
      && (x.timestamp == day + " 00:00:00" ==> x in FilterByStartDate(rs, c).value && x in FilterByEndDate(rs, c).value)
      && (FormatDate(TimeOf(x)) == day && !IsMidnight(TimeOf(x)) ==> x !in FilterByEndDate(rs, c).value)
  {
    var c := Criteria(None, Some(day), Some(day));
    var midnight := ParseDate(day).value;
    if x.timestamp == day + " 00:00:00" {
      ParseMidnightTimestamp(day);
      NotAfterIsTotalOrder(midnight, midnight, midnight);
    }
    if FormatDate(TimeOf(x)) == day {
      var t := TimeOf(x);
      ParseFormatDate(DateTime(t.year, t.month, t.day, 0, 0, 0));
    }
  }
}
