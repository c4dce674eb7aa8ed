/** Per-course scoring shared by the live search (app.py) and the offline
    matching script (find_matching.py): the three similarity scores, the
    inclusion gate and the descending score triple used as the ranking key. */
module Scoring {
  import opened Wrappers
  import opened Catalog

  /** The three raw scores of one course against the query. */
  datatype RawScores = RawScores(title: real, summary: real, lesson: real)

  /** The ranking key: the three scores sorted in descending order. */
  datatype Triple = Triple(hi: real, mid: real, lo: real)

  /** What happened to one course: scoring raised, the course fell below the
      threshold, or it was kept with the given value. */
  datatype Verdict<T> = Raised | Excluded | Kept(value: T)

  /** `max(scores) if scores else 0`. */
  function MaxOrZero(scores: seq<real>): (m: real)
    ensures scores == [] ==> m == 0.0
    ensures scores != [] ==> m in scores
    ensures forall x :: x in scores ==> x <= m
  {
    if scores == [] then 0.0
    else if |scores| == 1 then scores[0]
    else
      var rest := MaxOrZero(scores[1..]);
      assert scores == [scores[0]] + scores[1..];
      if scores[0] >= rest then scores[0] else rest
  }

  /** A lesson entry can be scored: it has an `embedding` key and the
      similarity call on it does not raise. */
  predicate LessonScorable(q: Vector, l: LessonRecord, sim: Similarity)
  {
    l.embedding.Some? && sim(q, l.embedding.value).Some?
  }

  /** The comprehension of per-lesson similarities; `None` when any lesson
      raises. */
  function LessonScores(q: Vector, lessons: seq<LessonRecord>, sim: Similarity): (r: Option<seq<real>>)
    ensures r.Some? <==> forall i :: 0 <= i < |lessons| ==> LessonScorable(q, lessons[i], sim)
    ensures r.Some? ==> |r.value| == |lessons|
    ensures r.Some? ==> forall i :: 0 <= i < |lessons| ==>
      sim(q, lessons[i].embedding.value) == Some(r.value[i])
  {
    if lessons == [] then Some([])
    else if !LessonScorable(q, lessons[0], sim) then None
    else match LessonScores(q, lessons[1..], sim)
      case None => None
      case Some(rest) => Some([sim(q, lessons[0].embedding.value).value] + rest)
  }

  /** The three scores of a course, or `None` when reading a key or calling
      the similarity raised. */
  function Score(q: Vector, c: Course, sim: Similarity): (r: Option<RawScores>)
    ensures r.Some? <==>
      && c.titleEmbedding.Some? && sim(q, c.titleEmbedding.value).Some?
      && c.sldEmbedding.Some? && sim(q, c.sldEmbedding.value).Some?
      && c.lessonEmbeddings.Some?
      && forall i :: 0 <= i < |c.lessonEmbeddings.value| ==> LessonScorable(q, c.lessonEmbeddings.value[i], sim)
    ensures r.Some? ==>
      && Some(r.value.title) == sim(q, c.titleEmbedding.value)
      && Some(r.value.summary) == sim(q, c.sldEmbedding.value)
  {
    if c.titleEmbedding.None? || sim(q, c.titleEmbedding.value).None? then None
    else if c.sldEmbedding.None? || sim(q, c.sldEmbedding.value).None? then None
    else if c.lessonEmbeddings.None? then None
    else match LessonScores(q, c.lessonEmbeddings.value, sim)
      case None => None
      case Some(ls) =>
        Some(RawScores(sim(q, c.titleEmbedding.value).value,
                       sim(q, c.sldEmbedding.value).value,
                       MaxOrZero(ls)))
  }

  /** The lesson score is the largest per-lesson similarity, and zero for a
      course without lessons. */
  lemma LessonScoreIsMax(q: Vector, c: Course, sim: Similarity)
    requires Score(q, c, sim).Some?
    ensures c.lessonEmbeddings.Some?
    ensures var ls, m := c.lessonEmbeddings.value, Score(q, c, sim).value.lesson;
      && (ls == [] ==> m == 0.0)
      && (forall i :: 0 <= i < |ls| ==>
            ls[i].embedding.Some? && sim(q, ls[i].embedding.value).Some? &&
            sim(q, ls[i].embedding.value).value <= m)
      && (ls != [] ==> exists i :: 0 <= i < |ls| && sim(q, ls[i].embedding.value) == Some(m))
  {
    var ls := c.lessonEmbeddings.value;
    var scores := LessonScores(q, ls, sim).value;
    var m := Score(q, c, sim).value.lesson;
    assert m == MaxOrZero(scores);
    forall i | 0 <= i < |ls|
      ensures sim(q, ls[i].embedding.value).value <= m
    {
      assert scores[i] in scores;
    }
    if ls != [] {
      var k :| 0 <= k < |scores| && scores[k] == m;
      assert sim(q, ls[k].embedding.value) == Some(m);
    }
  }

  /** The inclusion gate: any one of the three scores reaching the threshold
      (inclusively) is enough. */
  predicate Passes(s: RawScores, threshold: real)
  {
    s.title >= threshold || s.summary >= threshold || s.lesson >= threshold
  }

  /** `sorted([title, summary, lesson], reverse=True)`. */
  function SortDesc3(s: RawScores): (t: Triple)
    ensures t.hi >= t.mid >= t.lo
    ensures multiset{t.hi, t.mid, t.lo} == multiset{s.title, s.summary, s.lesson}
  {
    var a, b, c := s.title, s.summary, s.lesson;
    if a >= b then
      if b >= c then Triple(a, b, c)
      else if a >= c then Triple(a, c, b)
      else Triple(c, a, b)
    else
      if a >= c then Triple(b, a, c)
      else if b >= c then Triple(b, c, a)
      else Triple(c, b, a)
  }

  /** The gate decides on the raw scores and the key is the sorted triple;
      they agree in that a course passes exactly when its best score does. */
  lemma GateIsBestScore(s: RawScores, threshold: real)
    ensures Passes(s, threshold) <==> SortDesc3(s).hi >= threshold
  {
    var t := SortDesc3(s);
    assert t.hi in multiset{s.title, s.summary, s.lesson};
    assert s.title in multiset{t.hi, t.mid, t.lo};
    assert s.summary in multiset{t.hi, t.mid, t.lo};
    assert s.lesson in multiset{t.hi, t.mid, t.lo};
  }

  /** Scoring and gating of one course, as both call sites do it before they
      read the course's display fields. */
  function Assess(q: Vector, c: Course, sim: Similarity, threshold: real): (v: Verdict<Triple>)
    ensures v.Raised? <==> Score(q, c, sim).None?
    ensures v.Kept? <==> Score(q, c, sim).Some? && Passes(Score(q, c, sim).value, threshold)
    ensures v.Kept? ==> v.value == SortDesc3(Score(q, c, sim).value)
    ensures v.Kept? ==> v.value.hi >= v.value.mid >= v.value.lo
  {
    match Score(q, c, sim)
    case None => Raised
    case Some(s) => if Passes(s, threshold) then Kept(SortDesc3(s)) else Excluded
  }

  /** Lowering the threshold (0.4 in the live search, 0.3 offline) never drops
      a course, and keeps its key. */
  lemma LowerThresholdKeeps(q: Vector, c: Course, sim: Similarity, lower: real, higher: real)
    requires lower <= higher
    requires Assess(q, c, sim, higher).Kept?
    ensures Assess(q, c, sim, lower) == Assess(q, c, sim, higher)
  {
  }
}
