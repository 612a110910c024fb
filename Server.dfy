/** The request handlers: GET runs the filters and the ranking over the review
    list; POST validates a new review and appends it to that list. */
module Server {
  import opened Wrappers
  import opened Timestamps
  import opened Reviews
  import opened QueryFilters
  import opened Ranking

  /** The ValueError messages of the POST handler. */
  datatype IntakeError = MissingReviewBody | MissingLocation | InvalidLocation {
    function Message(): string {
      match this
      case MissingReviewBody => "missing review_body"
      case MissingLocation => "missing location"
      case InvalidLocation => "invalid location"
    }
  }

  /** The POST form's checks, in order; the first failing one is reported. */
  function ValidateIntake(body: Option<string>, location: Option<string>): (r: Result<(string, string), IntakeError>)
    ensures r.Success? <==> Given(body) && Given(location) && location.value in PredefinedLocations
    ensures r.Success? ==> r.value == (body.value, location.value)
    ensures r == Failure(MissingReviewBody) <==> !Given(body)
    ensures r == Failure(MissingLocation) <==> Given(body) && !Given(location)
    ensures r == Failure(InvalidLocation) <==> Given(body) && Given(location) && location.value !in PredefinedLocations
    ensures !Given(body) ==> r.Failure? && r.error.Message() == "missing review_body"
    ensures Given(body) && !Given(location) ==> r.Failure? && r.error.Message() == "missing location"
    ensures Given(body) && Given(location) && location.value !in PredefinedLocations ==>
      r.Failure? && r.error.Message() == "invalid location"
  {
    if !Given(body) then Failure(MissingReviewBody)
    else if !Given(location) then Failure(MissingLocation)
    else if location.value !in PredefinedLocations then Failure(InvalidLocation)
    else Success((body.value, location.value))
  }

  function Ids(rs: seq<Review>): set<string> {
    set r | r in rs :: r.id
  }

  /** The review list's invariant: well-formed reviews with distinct ids. */
  predicate WellFormedStore(rs: seq<Review>) {
    && (forall r :: r in rs ==> WellFormed(r))
    && (forall i, j :: 0 <= i < j < |rs| ==> rs[i].id != rs[j].id)
  }

  /** The module-level `reviews` list. */
  class ReviewStore {
    var reviews: seq<Review>

    ghost predicate Valid()
      reads this
    {
      WellFormedStore(reviews)
    }

    /** The list as loaded at start-up. */
    constructor (initial: seq<Review>)
      requires WellFormedStore(initial)
      ensures Valid() && reviews == initial
    {
      reviews := initial;
    }

    /** The POST branch. `newId` stands for `uuid4()` and `now` for `datetime.now()`
        truncated to seconds. On success the new review is appended and returned;
        on an error nothing changes. A valid list stays valid when the id is fresh. */
    method Create(body: Option<string>, location: Option<string>, newId: string, now: DateTime)
      returns (res: Result<Review, IntakeError>)
      requires Timestamps.Valid(now)
      modifies this
      ensures old(Valid()) && newId !in old(Ids(reviews)) ==> Valid()
      ensures res.Success? <==> ValidateIntake(body, location).Success?
      ensures res.Failure? ==> res.error == ValidateIntake(body, location).error && reviews == old(reviews)
      ensures res.Success? ==>
        && res.value == Review(newId, body.value, location.value, FormatTimestamp(now))
        && reviews == old(reviews) + [res.value]
        && ParseTimestamp(res.value.timestamp) == Some(now)
    {
      match ValidateIntake(body, location)
      case Failure(e) =>
        res := Failure(e);
      case Success((reviewBody, reviewLocation)) =>
        var newReview := Review(newId, reviewBody, reviewLocation, FormatTimestamp(now));
        ParseFormatTimestamp(now);
        assert newId !in Ids(reviews) ==> forall r :: r in reviews ==> r.id != newId;
        reviews := reviews + [newReview];
        res := Success(newReview);
    }

    /** The GET branch: the filters, then the ranking, over the current list. */
    method Query(c: Criteria, score: string -> Sentiment) returns (res: Result<seq<Ranked>, QueryError>)
      ensures res.Failure? <==> RunFilters(reviews, c).Failure?
      ensures res.Failure? ==> res.error == RunFilters(reviews, c).error
      ensures res.Success? ==>
        && SortedByCompound(res.value)
        && SameTies(res.value, Scored(RunFilters(reviews, c).value, score))
        && multiset(res.value) == multiset(Scored(RunFilters(reviews, c).value, score))
      ensures Valid() ==> (res.Success? <==> DatesParse(c))
    {
      if Valid() {
        QueryOverValidStore(reviews, c);
      }
      match RunFilters(reviews, c)
      case Failure(e) =>
        res := Failure(e);
      case Success(filtered) =>
        var ranked := Rank(filtered, score);
        res := Success(ranked);
    }
  }

  /** Over a valid list, a query fails only for a filter date that does not parse,
      and otherwise answers with every selected review, in ranked order. */
  lemma QueryOverValidStore(rs: seq<Review>, c: Criteria)
    requires WellFormedStore(rs)
    ensures RunFilters(rs, c).Success? <==> DatesParse(c)
    ensures DatesParse(c) ==> RunFilters(rs, c).value == Sequences.Keep(rs, (x: Review) => Selected(c, x))
  {
    FailsOnlyOnBadDates(rs, c);
    if DatesParse(c) {
      FiltersAreOneConjunction(rs, c);
    }
  }

  /** A review appended by POST shows up in later queries exactly when it is selected:
      the answer over the longer list is the old one plus, at the end, the new review
      if it passes the filters. */
  lemma AppendedReviewIsFiltered(rs: seq<Review>, c: Criteria, r: Review)
    requires WellFormedStore(rs) && WellFormed(r) && DatesParse(c)
    ensures RunFilters(rs + [r], c) == Success(RunFilters(rs, c).value + (if Selected(c, r) then [r] else []))
  {
    var p := (x: Review) => Selected(c, x);
    assert AllHaveTimestamps(rs + [r]) by {
      forall x | x in rs + [r] ensures HasTimestamp(x) {
        assert x in rs || x == r;
      }
    }
    FiltersAreOneConjunction(rs, c);
    FiltersAreOneConjunction(rs + [r], c);
    Sequences.KeepAppend(rs, [r], p);
    assert [r][1..] == [];
    assert Sequences.Keep([r], p) == if p(r) then [r] else [];
  }
}
