/** The review record, the fixed location whitelist and the sentiment score. */
module Reviews {
  import opened Timestamps

  /** One row of the review list: `ReviewId`, `ReviewBody`, `Location`, `Timestamp`. */
  datatype Review = Review(id: string, body: string, location: string, timestamp: string)

  /** `predefined_location`, in its order; "Salt Lake City, Utah" appears twice in it. */
  const PredefinedLocations: seq<string> := [
    "Albuquerque", "New Mexico", "Carlsbad, California", "Chula Vista", "California",
    "Colorado Springs, Colorado", "Denver, Colorado", "El Cajon, California", "El Paso, Texas",
    "Escondido, California", "Fresno, California", "La Mesa, California", "Las Vegas, Nevada",
    "Los Angeles, California", "Oceanside, California", "Phoenix, Arizona",
    "Sacramento, California", "Salt Lake City, Utah", "Salt Lake City, Utah",
    "San Diego, California", "Tucson, Arizona"
  ]

  /** The score the sentiment analyser returns for a text; only `compound` is used for ranking. */
  datatype Sentiment = Sentiment(negative: real, neutral: real, positive: real, compound: real)

  /** A review whose `Timestamp` text parses with "%Y-%m-%d %H:%M:%S". */
  predicate HasTimestamp(r: Review) {
    ParseTimestamp(r.timestamp).Some?
  }

  /** The parsed `Timestamp` of a review whose text parses. */
  function TimeOf(r: Review): DateTime
    requires HasTimestamp(r)
  {
    ParseTimestamp(r.timestamp).value
  }

  predicate AllHaveTimestamps(rs: seq<Review>) {
    forall r :: r in rs ==> HasTimestamp(r)
  }

  /** What a review in the list is expected to satisfy: a non-empty body, a
      whitelisted location and a parseable timestamp. */
  predicate WellFormed(r: Review) {
    r.body != "" && r.location in PredefinedLocations && HasTimestamp(r)
  }
}
