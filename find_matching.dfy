/** The offline matching script of find_matching.py: the same ranking as the
    live search, at threshold 0.3, returning titles only. It has no exception
    handling, so a course that raises aborts the whole call. */
module Matching {
  import opened Wrappers
  import opened Catalog
  import opened Scoring
  import opened RankOrder
  import App

  /** The threshold the offline script uses for all three scores. */
  const OfflineThreshold: real := 0.3

  /** One iteration of the loop: scoring, the gate, then reading `title`. */
  function Step(q: Vector, c: Course, sim: Similarity, threshold: real): Verdict<Ranked<string>>
  {
    match Assess(q, c, sim, threshold)
    case Raised => Raised
    case Excluded => Excluded
    case Kept(key) => if c.title.Some? then Kept(Ranked(c.title.value, key)) else Raised
  }

  /** The `results` list after the loop has seen `cs`; `None` once a course
      has raised. */
  function Candidates(q: Vector, cs: seq<Course>, sim: Similarity, threshold: real): Option<seq<Ranked<string>>>
  {
    if cs == [] then Some([])
    else match Candidates(q, cs[..|cs| - 1], sim, threshold)
      case None => None
      case Some(done) =>
        match Step(q, cs[|cs| - 1], sim, threshold)
        case Raised => None
        case Excluded => Some(done)
        case Kept(e) => Some(done + [e])
  }

  /** A course enters the offline results iff it can be scored, has a
      `title`, and one of its three raw scores reaches the threshold
      (inclusively); its key is then its three scores in descending order. */
  lemma StepKeptIff(q: Vector, c: Course, sim: Similarity, threshold: real)
    ensures Step(q, c, sim, threshold).Kept? <==>
      && Score(q, c, sim).Some? && c.title.Some?
      && var s := Score(q, c, sim).value;
         s.title >= threshold || s.summary >= threshold || s.lesson >= threshold
    ensures Step(q, c, sim, threshold).Kept? ==>
      var e, s := Step(q, c, sim, threshold).value, Score(q, c, sim).value;
      && e.item == c.title.value
      && e.score.hi >= e.score.mid >= e.score.lo
      && multiset{e.score.hi, e.score.mid, e.score.lo} == multiset{s.title, s.summary, s.lesson}
  {
  }

  /** A course makes the offline loop raise iff it cannot be scored, or it
      passes the gate and has no `title`. */
  lemma StepRaisesIff(q: Vector, c: Course, sim: Similarity, threshold: real)
    ensures Step(q, c, sim, threshold).Raised? <==>
      || Score(q, c, sim).None?
      || (Passes(Score(q, c, sim).value, threshold) && c.title.None?)
  {
  }

  /** Once a course has raised, the call fails whatever follows. */
  lemma {:induction false} RaisedIsFinal(q: Vector, cs: seq<Course>, n: nat, sim: Similarity, threshold: real)
    requires n <= |cs|
    requires Candidates(q, cs[..n], sim, threshold).None?
    ensures Candidates(q, cs, sim, threshold).None?
    decreases |cs| - n
  {
    if n < |cs| {
      assert cs[..n + 1][..n] == cs[..n];
      RaisedIsFinal(q, cs, n + 1, sim, threshold);
    } else {
      assert cs[..n] == cs;
    }
  }

  /** A course whose processing raises. */
  predicate Raises(q: Vector, c: Course, sim: Similarity, threshold: real)
  {
    Step(q, c, sim, threshold).Raised?
  }

  /** The call succeeds exactly when no course raises. */
  lemma {:induction false} SucceedsIffNoneRaises(q: Vector, cs: seq<Course>, sim: Similarity, threshold: real)
    ensures Candidates(q, cs, sim, threshold).Some? <==>
      forall i :: 0 <= i < |cs| ==> !Raises(q, cs[i], sim, threshold)
  {
    if cs != [] {
      var n := |cs| - 1;
      var init := cs[..n];
      SucceedsIffNoneRaises(q, init, sim, threshold);
      assert Candidates(q, cs, sim, threshold).Some? <==>
        Candidates(q, init, sim, threshold).Some? && !Raises(q, cs[n], sim, threshold);
      if forall i :: 0 <= i < |cs| ==> !Raises(q, cs[i], sim, threshold) {
        forall i | 0 <= i < |init| ensures !Raises(q, init[i], sim, threshold) {
          assert init[i] == cs[i];
        }
      }
      if Candidates(q, cs, sim, threshold).Some? {
        assert Candidates(q, init, sim, threshold).Some?;
        assert !Raises(q, cs[n], sim, threshold);
        forall i | 0 <= i < |cs| ensures !Raises(q, cs[i], sim, threshold) {
          if i < n {
            assert cs[i] == init[i];
            assert !Raises(q, init[i], sim, threshold);
          } else {
            assert i == n;
          }
        }
      }
    }
  }

  /** What `find_relevant_courses` returns; `None` when it raises. */
  function MatchResult(query: string, courses: seq<Course>, encode: Encoder, sim: Similarity, threshold: real): Option<seq<string>>
  {
    match encode(query)
    case None => None
    case Some(q) =>
      match Candidates(q, courses, sim, threshold)
      case None => None
      case Some(results) => Some(Items(SortDesc(results)))
  }

  /** A successful call returns one title per kept course, in an order whose
      keys are non-increasing and in which courses with equal keys keep their
      catalogue order. */
  lemma {:induction false} MatchResultIsRanked(query: string, cs: seq<Course>, encode: Encoder, sim: Similarity, threshold: real)
    requires MatchResult(query, cs, encode, sim, threshold).Some?
    ensures encode(query).Some? && Candidates(encode(query).value, cs, sim, threshold).Some?
    ensures var kept, titles := Candidates(encode(query).value, cs, sim, threshold).value,
                                MatchResult(query, cs, encode, sim, threshold).value;
      exists top: seq<Ranked<string>> ::
        && |top| == |kept| == |titles|
        && multiset(top) == multiset(kept)
        && NonIncreasing(top)
        && (forall k :: WithScore(top, k) == WithScore(kept, k))
        && (forall i :: 0 <= i < |titles| ==> titles[i] == top[i].item)
  {
    var kept := Candidates(encode(query).value, cs, sim, threshold).value;
    SortDescCorrect(kept);
    var top := SortDesc(kept);
    assert |top| == |kept|;
  }

  /** `find_relevant_courses`, with the threshold as a parameter. */
  method FindRelevantCourses(query: string, courses: seq<Course>, encode: Encoder, sim: Similarity, threshold: real)
    returns (titles: Option<seq<string>>)
    ensures titles == MatchResult(query, courses, encode, sim, threshold)
  {
    var queryEmbedding := encode(query);
    if queryEmbedding.None? {
      return None;
    }
    var q := queryEmbedding.value;
    var results: seq<Ranked<string>> := [];
    for i := 0 to |courses|
      invariant Candidates(q, courses[..i], sim, threshold) == Some(results)
    {
      assert courses[..i + 1][..i] == courses[..i];
      var course := courses[i];
      var scores := Score(q, course, sim);
      if scores.None? {
        RaisedIsFinal(q, courses, i + 1, sim, threshold);
        return None;
      }
      var s := scores.value;
      if s.title >= threshold || s.summary >= threshold || s.lesson >= threshold {
        var sortedScores := SortDesc3(s);
        if course.title.None? {
          RaisedIsFinal(q, courses, i + 1, sim, threshold);
          return None;
        }
        results := results + [Ranked(course.title.value, sortedScores)];
      }
    }
    assert courses[..|courses|] == courses;
    titles := Some(Items(SortDesc(results)));
  }

  /** Run at the offline threshold. */
  method FindRelevantCoursesOffline(query: string, courses: seq<Course>, encode: Encoder, sim: Similarity)
    returns (titles: Option<seq<string>>)
    ensures titles == MatchResult(query, courses, encode, sim, OfflineThreshold)
  {
    titles := FindRelevantCourses(query, courses, encode, sim, OfflineThreshold);
  }

  /** The title of a live-search entry. */
  function TitleOf(m: App.Match): string
  {
    m.title
  }

  /** Where every course carries the display keys, the offline script keeps
      the same courses with the same keys as the live search. */
  lemma {:induction false} SameCandidatesAsLiveSearch(q: Vector, cs: seq<Course>, sim: Similarity, threshold: real)
    requires forall i :: 0 <= i < |cs| ==> cs[i].smallDescription.Some? && cs[i].url.Some?
    requires Candidates(q, cs, sim, threshold).Some?
    ensures Candidates(q, cs, sim, threshold).value == Relabel(App.Candidates(q, cs, sim, threshold), TitleOf)
  {
    if cs != [] {
      var init := cs[..|cs| - 1];
      assert forall i :: 0 <= i < |init| ==> init[i] == cs[i];
      SameCandidatesAsLiveSearch(q, init, sim, threshold);
      var live := App.Candidates(q, init, sim, threshold);
      var e := App.Entry(q, cs[|cs| - 1], sim, threshold);
      assert App.Candidates(q, cs, sim, threshold) == live + App.Appended(e);
      RelabelAppend(live, App.Appended(e), TitleOf);
    }
  }

  lemma {:induction false} RelabelAppend<T, U>(a: seq<Ranked<T>>, b: seq<Ranked<T>>, f: T -> U)
    ensures Relabel(a + b, f) == Relabel(a, f) + Relabel(b, f)
  {
  }

  /** At the same threshold, and where every course carries the display keys,
      the offline script lists the titles of the live search's rows in the
      same order: the two differ only in threshold and output shape. */
  lemma SameRankingAsLiveSearch(query: string, cs: seq<Course>, encode: Encoder, sim: Similarity, threshold: real)
    requires forall i :: 0 <= i < |cs| ==> cs[i].smallDescription.Some? && cs[i].url.Some?
    requires MatchResult(query, cs, encode, sim, threshold).Some?
    ensures var titles, rows := MatchResult(query, cs, encode, sim, threshold).value,
                                App.SearchResult(query, cs, encode, sim, threshold);
      && |titles| == |rows|
      && forall i :: 0 <= i < |rows| ==> rows[i].Row? && rows[i].title == titles[i]
  {
    var q := encode(query).value;
    var live := App.Candidates(q, cs, sim, threshold);
    SameCandidatesAsLiveSearch(q, cs, sim, threshold);
    SortIgnoresItems(live, TitleOf);
  }
}
