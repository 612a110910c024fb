/** The ranking stage of the GET handler: every filtered review is paired with
    its sentiment, then the list is sorted in place by `compound`, largest first.
    Python's `list.sort` is stable also with `reverse=True`, so reviews with equal
    `compound` keep their order. */
module Ranking {
  import opened Sequences
  import opened Reviews

  /** One entry of the response: the review's fields and its `sentiment`. */
  datatype Ranked = Ranked(review: Review, sentiment: Sentiment)

  function Compound(x: Ranked): real {
    x.sentiment.compound
  }

  /** The response entries before sorting: each review with the score of its body. */
  function Scored(rs: seq<Review>, score: string -> Sentiment): seq<Ranked> {
    seq(|rs|, i requires 0 <= i < |rs| => Ranked(rs[i], score(rs[i].body)))
  }

  /** Non-increasing `compound` from left to right. */
  predicate SortedByCompound(s: seq<Ranked>) {
    forall i, j :: 0 <= i < j < |s| ==> Compound(s[i]) >= Compound(s[j])
  }

  /** The entries whose `compound` equals `c`, in their order in `s`. */
  function Ties(s: seq<Ranked>, c: real): seq<Ranked> {
    Keep(s, (x: Ranked) => Compound(x) == c)
  }

  /** `b` keeps, for every `compound` value, the order of the entries of `a` that have it. */
  ghost predicate SameTies(a: seq<Ranked>, b: seq<Ranked>) {
    forall c :: Ties(a, c) == Ties(b, c)
  }

  /** `s` with the neighbours at `j - 1` and `j` exchanged. */
  function Swapped(s: seq<Ranked>, j: int): seq<Ranked>
    requires 0 < j < |s|
  {
    s[..j - 1] + [s[j], s[j - 1]] + s[j + 1..]
  }

  /** Exchanging two neighbours with different `compound` keeps every tie group in order. */
  lemma SwapKeepsTies(s: seq<Ranked>, j: int)
    requires 0 < j < |s| && Compound(s[j - 1]) != Compound(s[j])
    ensures SameTies(Swapped(s, j), s)
  {
    var t := Swapped(s, j);
    assert s == s[..j - 1] + [s[j - 1], s[j]] + s[j + 1..];
    forall c
      ensures Ties(t, c) == Ties(s, c)
    {
      var p := (x: Ranked) => Compound(x) == c;
      KeepAppend(s[..j - 1] + [s[j], s[j - 1]], s[j + 1..], p);
      KeepAppend(s[..j - 1], [s[j], s[j - 1]], p);
      KeepAppend(s[..j - 1] + [s[j - 1], s[j]], s[j + 1..], p);
      KeepAppend(s[..j - 1], [s[j - 1], s[j]], p);
      KeepAppend([s[j]], [s[j - 1]], p);
      KeepAppend([s[j - 1]], [s[j]], p);
    }
  }

  /** Keeping every tie group is a permutation. */
  lemma {:induction false} SameTiesIsPermutation(a: seq<Ranked>, b: seq<Ranked>)
    requires SameTies(a, b)
    ensures multiset(a) == multiset(b)
  {
    forall x
      ensures multiset(a)[x] == multiset(b)[x]
    {
      var p := (y: Ranked) => Compound(y) == Compound(x);
      KeepCount(a, p, x);
      KeepCount(b, p, x);
      assert Ties(a, Compound(x)) == Ties(b, Compound(x));
    }
  }

  /** Sorted by `compound` with every tie group in input order determines the
      output completely: any two such outputs for the same input are equal, so
      repeating a query over an unchanged list gives the same response. */
  lemma {:induction false} StableSortIsUnique(a: seq<Ranked>, b: seq<Ranked>)
    requires SortedByCompound(a) && SortedByCompound(b) && SameTies(a, b)
    ensures a == b
    decreases |a|
  {
    if a != [] {
      assert a[0] in Ties(a, Compound(a[0]));
      assert b != [];
      assert b[0] in Ties(b, Compound(b[0]));
      var k := Compound(a[0]);
      assert Compound(b[0]) == k by {
        assert a[0] in b;
        assert b[0] in a;
      }
      assert a[0] == Ties(a, k)[0] == Ties(b, k)[0] == b[0];
      forall c
        ensures Ties(a[1..], c) == Ties(b[1..], c)
      {
        if c == k {
          assert Ties(a[1..], c) == Ties(a, c)[1..];
          assert Ties(b[1..], c) == Ties(b, c)[1..];
        } else {
          assert Ties(a[1..], c) == Ties(a, c);
          assert Ties(b[1..], c) == Ties(b, c);
        }
      }
      StableSortIsUnique(a[1..], b[1..]);
      assert a == [a[0]] + a[1..] && b == [b[0]] + b[1..];
    }
  }

  /** `response_data.sort(key=lambda x: x['sentiment']['compound'], reverse=True)`,
      as an insertion sort. */
  method SortByCompound(a: array<Ranked>)
    modifies a
    ensures SortedByCompound(a[..])
    ensures SameTies(a[..], old(a[..]))
  {
    for i := 0 to a.Length
      invariant SortedByCompound(a[..i])
      invariant SameTies(a[..], old(a[..]))
    {
      InsertLeft(a, i);
    }
    assert a[..a.Length] == a[..];
  }

  /** While `a[i]` moves left to position `j`: the entries of `s[..i + 1]` other
      than the one at `j` are sorted, and all entries it has passed are smaller. */
  predicate Inserting(s: seq<Ranked>, i: int, j: int)
    requires 0 <= j <= i < |s|
  {
    && (forall p, q :: 0 <= p < q <= i && p != j && q != j ==> Compound(s[p]) >= Compound(s[q]))
    && (forall q :: j < q <= i ==> Compound(s[j]) > Compound(s[q]))
  }

  lemma InsertingStep(s: seq<Ranked>, i: int, j: int)
    requires 0 < j <= i < |s| && Inserting(s, i, j) && Compound(s[j - 1]) < Compound(s[j])
    ensures |Swapped(s, j)| == |s| && Inserting(Swapped(s, j), i, j - 1)
  {
    var t := Swapped(s, j);
    assert forall k :: 0 <= k < |s| && k != j - 1 && k != j ==> t[k] == s[k];
    assert t[j - 1] == s[j] && t[j] == s[j - 1];
  }

  lemma InsertingDone(s: seq<Ranked>, i: int, j: int)
    requires 0 <= j <= i < |s| && Inserting(s, i, j)
    requires j == 0 || Compound(s[j - 1]) >= Compound(s[j])
    ensures SortedByCompound(s[..i + 1])
  {
    forall p, q | 0 <= p < q <= i
      ensures Compound(s[p]) >= Compound(s[q])
    {
      if q == j && p < j - 1 {
        assert Compound(s[p]) >= Compound(s[j - 1]);
      }
    }
  }

  /** Moves `a[i]` left past the strictly smaller entries of the sorted prefix
      `a[..i]`; it stops at an equal one, which keeps the sort stable. */
  method InsertLeft(a: array<Ranked>, i: int)
    requires 0 <= i < a.Length && SortedByCompound(a[..i])
    modifies a
    ensures SortedByCompound(a[..i + 1])
    ensures SameTies(a[..], old(a[..]))
    ensures a[i + 1..] == old(a[i + 1..])
  {
    var j := i;
    while j > 0 && Compound(a[j - 1]) < Compound(a[j])
      invariant 0 <= j <= i
      invariant Inserting(a[..], i, j)
      invariant SameTies(a[..], old(a[..]))
      invariant a[i + 1..] == old(a[i + 1..])
    {
      ghost var before := a[..];
      a[j - 1], a[j] := a[j], a[j - 1];
      assert a[..] == Swapped(before, j);
      SwapKeepsTies(before, j);
      InsertingStep(before, i, j);
      j := j - 1;
    }
    InsertingDone(a[..], i, j);
  }

  /** The loop that builds `response_data`, followed by the sort. The result holds
      every filtered review once with its own score, ordered by non-increasing
      `compound`, with equal scores in input order. */
  method Rank(rs: seq<Review>, score: string -> Sentiment) returns (ranked: seq<Ranked>)
    ensures SortedByCompound(ranked)
    ensures SameTies(ranked, Scored(rs, score))
    ensures multiset(ranked) == multiset(Scored(rs, score))
    ensures forall x :: x in ranked ==> x.review in rs && x.sentiment == score(x.review.body)
  {
    var responseData: seq<Ranked> := [];
    for i := 0 to |rs|
      invariant responseData == Scored(rs[..i], score)
    {
      responseData := responseData + [Ranked(rs[i], score(rs[i].body))];
    }
    assert rs[..|rs|] == rs;
    var a := new Ranked[|responseData|](k requires 0 <= k < |responseData| => responseData[k]);
    assert a[..] == responseData;
    SortByCompound(a);
    ranked := a[..];
    SameTiesIsPermutation(ranked, responseData);
    assert forall x :: x in ranked ==> x in multiset(responseData);
  }
}
