/** The live search of app.py: `find_relevant_courses` and `search`. */
module App {
  import opened Wrappers
  import opened Catalog
  import opened Scoring
  import opened RankOrder

  /** The threshold the live search uses for all three scores. */
  const LiveThreshold: real := 0.4

  /** Displayed descriptions longer than this are cut to it. */
  const DisplayWidth: nat := 60

  /** The course fields a kept course contributes (its key is kept beside it). */
  datatype Match = Match(title: string, description: string, url: string)

  /** One row of the returned table: `[rank, title, description, url]`, or an
      error row `[heading, message]`. */
  datatype DisplayRow =
    | Row(rank: nat, title: string, description: string, url: string)
    | ErrorRow(heading: string, message: string)

  /** The display form of `small_description`. */
  function Truncate(s: string): (r: string)
    ensures |s| <= DisplayWidth ==> r == s
    ensures |s| > DisplayWidth ==> |r| == DisplayWidth + 3 && r[..DisplayWidth] == s[..DisplayWidth] && r[DisplayWidth..] == "..."
  {
    if |s| > DisplayWidth then s[..DisplayWidth] + "..." else s
  }

  /** Truncating a displayed description again changes nothing, and a
      displayed description is never longer than 63 characters. */
  lemma TruncateIsStable(s: string)
    ensures |Truncate(s)| <= DisplayWidth + 3
    ensures Truncate(Truncate(s)) == Truncate(s)
  {
    if |s| > DisplayWidth {
      assert Truncate(s)[..DisplayWidth] == s[..DisplayWidth];
    }
  }

  /** One iteration of the loop over the catalogue: scoring, the gate, then
      reading the display keys. A `KeyError` or another exception raised for
      this course skips it (`Raised`). */
  function Entry(q: Vector, c: Course, sim: Similarity, threshold: real): Verdict<Ranked<Match>>
  {
    match Assess(q, c, sim, threshold)
    case Raised => Raised
    case Excluded => Excluded
    case Kept(key) =>
      if c.title.Some? && c.smallDescription.Some? && c.url.Some? then
        Kept(Ranked(Match(c.title.value, Truncate(c.smallDescription.value), c.url.value), key))
      else Raised
  }

  /** A course is in the results iff it can be scored, has its display keys,
      and one of its three raw scores reaches the threshold; its key is then
      its three scores in descending order. */
  lemma EntryKeptIff(q: Vector, c: Course, sim: Similarity, threshold: real)
    ensures Entry(q, c, sim, threshold).Kept? <==>
      && Score(q, c, sim).Some?
      && c.title.Some? && c.smallDescription.Some? && c.url.Some?
      && var s := Score(q, c, sim).value;
         s.title >= threshold || s.summary >= threshold || s.lesson >= threshold
    ensures Entry(q, c, sim, threshold).Kept? ==>
      var e, s := Entry(q, c, sim, threshold).value, Score(q, c, sim).value;
      && e.item == Match(c.title.value, Truncate(c.smallDescription.value), c.url.value)
      && e.score.hi >= e.score.mid >= e.score.lo
      && multiset{e.score.hi, e.score.mid, e.score.lo} == multiset{s.title, s.summary, s.lesson}
  {
  }

  /** The kept entries of a verdict, as the loop appends them. */
  function Appended<T>(v: Verdict<T>): seq<T>
  {
    if v.Kept? then [v.value] else []
  }

  /** The `results` list after the loop has seen the courses `cs`. */
  function Candidates(q: Vector, cs: seq<Course>, sim: Similarity, threshold: real): seq<Ranked<Match>>
  {
    if cs == [] then []
    else Candidates(q, cs[..|cs| - 1], sim, threshold) + Appended(Entry(q, cs[|cs| - 1], sim, threshold))
  }

  /** The results of a catalogue are those of its parts, in catalogue order. */
  lemma {:induction false} CandidatesSplit(q: Vector, a: seq<Course>, b: seq<Course>, sim: Similarity, threshold: real)
    ensures Candidates(q, a + b, sim, threshold) == Candidates(q, a, sim, threshold) + Candidates(q, b, sim, threshold)
    decreases |b|
  {
    if b == [] {
      assert a + b == a;
    } else {
      var b', last := b[..|b| - 1], b[|b| - 1];
      var ab := a + b;
      assert ab[..|ab| - 1] == a + b';
      assert ab[|ab| - 1] == last;
      var tail := Appended(Entry(q, last, sim, threshold));
      assert Candidates(q, ab, sim, threshold) == Candidates(q, a + b', sim, threshold) + tail;
      assert Candidates(q, b, sim, threshold) == Candidates(q, b', sim, threshold) + tail;
      CandidatesSplit(q, a, b', sim, threshold);
    }
  }

  /** A course whose processing raises is skipped, and the courses after it
      are still processed. */
  lemma {:induction false} SkippedCourse(q: Vector, before: seq<Course>, c: Course, after: seq<Course>, sim: Similarity, threshold: real)
    requires Entry(q, c, sim, threshold).Raised?
    ensures Candidates(q, before + [c] + after, sim, threshold)
         == Candidates(q, before, sim, threshold) + Candidates(q, after, sim, threshold)
  {
    var one := Candidates(q, [c], sim, threshold);
    assert [c][..0] == [];
    assert one == Candidates(q, [], sim, threshold) + Appended(Entry(q, c, sim, threshold));
    CandidatesSplit(q, before + [c], after, sim, threshold);
    CandidatesSplit(q, before, [c], sim, threshold);
  }

  /** The scoring loop of `find_relevant_courses`. */
  method CollectCandidates(q: Vector, courses: seq<Course>, sim: Similarity, threshold: real)
    returns (results: seq<Ranked<Match>>)
    ensures results == Candidates(q, courses, sim, threshold)
  {
    results := [];
    for i := 0 to |courses|
      invariant results == Candidates(q, courses[..i], sim, threshold)
    {
      assert courses[..i + 1][..i] == courses[..i];
      var course := courses[i];
      var scores := Score(q, course, sim);
      if scores.None? {
        // KeyError or another exception: the course is skipped
        continue;
      }
      var s := scores.value;
      if s.title >= threshold || s.summary >= threshold || s.lesson >= threshold {
        var sortedScores := SortDesc3(s);
        if course.title.None? || course.smallDescription.None? || course.url.None? {
          continue;
        }
        var description := Truncate(course.smallDescription.value);
        results := results + [Ranked(Match(course.title.value, description, course.url.value), sortedScores)];
      }
    }
    assert courses[..|courses|] == courses;
  }

  /** `[[index + 1, title, description, url] for index, result in enumerate(top)]`. */
  function Display(top: seq<Ranked<Match>>): (rows: seq<DisplayRow>)
    ensures |rows| == |top|
    ensures forall i :: 0 <= i < |top| ==>
      rows[i] == Row(i + 1, top[i].item.title, top[i].item.description, top[i].item.url)
  {
    seq(|top|, i requires 0 <= i < |top| => Row(i + 1, top[i].item.title, top[i].item.description, top[i].item.url))
  }

  /** The rows for an encoded query. */
  function Ranking(q: Vector, courses: seq<Course>, sim: Similarity, threshold: real): seq<DisplayRow>
  {
    Display(SortDesc(Candidates(q, courses, sim, threshold)))
  }

  /** The row returned when the query cannot be encoded. */
  const EncodeFailure: DisplayRow := ErrorRow("Error", "Unable to encode query.")

  /** What `find_relevant_courses` returns. */
  function SearchResult(query: string, courses: seq<Course>, encode: Encoder, sim: Similarity, threshold: real): seq<DisplayRow>
  {
    match encode(query)
    case None => [EncodeFailure]
    case Some(q) => Ranking(q, courses, sim, threshold)
  }

  /** The rows are the kept courses ranked by key: one row per kept course,
      numbered from 1, keys non-increasing, courses with equal keys in
      catalogue order. */
  lemma RankingIsOrdered(q: Vector, courses: seq<Course>, sim: Similarity, threshold: real)
    ensures var kept, top, rows := Candidates(q, courses, sim, threshold),
                                   SortDesc(Candidates(q, courses, sim, threshold)),
                                   Ranking(q, courses, sim, threshold);
      && |rows| == |kept| == |top|
      && multiset(top) == multiset(kept)
      && NonIncreasing(top)
      && (forall k :: WithScore(top, k) == WithScore(kept, k))
      && (forall i :: 0 <= i < |rows| ==>
            && rows[i].Row? && rows[i].rank == i + 1
            && rows[i].title == top[i].item.title
            && rows[i].description == top[i].item.description
            && rows[i].url == top[i].item.url)
  {
    SortDescCorrect(Candidates(q, courses, sim, threshold));
  }

  /** An empty catalogue gives an empty table. */
  lemma EmptyCatalogue(query: string, encode: Encoder, sim: Similarity, threshold: real)
    requires encode(query).Some?
    ensures SearchResult(query, [], encode, sim, threshold) == []
  {
  }

  /** `find_relevant_courses`, with the threshold as a parameter. */
  method FindRelevantCourses(query: string, courses: seq<Course>, encode: Encoder, sim: Similarity, threshold: real)
    returns (rows: seq<DisplayRow>)
    ensures encode(query).None? ==> rows == [ErrorRow("Error", "Unable to encode query.")]
    ensures encode(query).Some? ==> rows == Ranking(encode(query).value, courses, sim, threshold)
  {
    var queryEmbedding := encode(query);
    if queryEmbedding.None? {
      return [EncodeFailure];
    }
    var results := CollectCandidates(queryEmbedding.value, courses, sim, threshold);
    var top := SortDesc(results);
    rows := Display(top);
  }

  /** `search`: the live search at threshold 0.4. */
  method Search(query: string, courses: seq<Course>, encode: Encoder, sim: Similarity)
    returns (rows: seq<DisplayRow>)
    ensures rows == SearchResult(query, courses, encode, sim, LiveThreshold)
  {
    rows := FindRelevantCourses(query, courses, encode, sim, LiveThreshold);
  }
}
