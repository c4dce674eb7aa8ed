/** The offline embedding script of create_embedding.py: each scraped course
    gains a title embedding, a summary embedding and one embedding per lesson,
    listed chapter by chapter. The script has no exception handling: a missing
    key or a failing encoder call aborts it before anything is written. */
module Embedding {
  import opened Wrappers
  import opened Catalog
  import Scoring

  /** The text embedded as the course summary: `f"{small} {description}"`. */
  function SummaryText(small: string, description: string): (t: string)
    ensures |t| == |small| + 1 + |description|
    ensures t[..|small|] == small && t[|small|] == ' ' && t[|small| + 1..] == description
  {
    small + " " + description
  }

  /** The text embedded for one lesson: `f"{chapter} : {lesson}"`. */
  function LessonText(chapter: string, lesson: string): (t: string)
    ensures |t| == |chapter| + 3 + |lesson|
    ensures t[..|chapter|] == chapter && t[|chapter|..|chapter| + 3] == " : " && t[|chapter| + 3..] == lesson
  {
    chapter + " : " + lesson
  }

  /** One lesson together with the title of the chapter it belongs to. */
  datatype Slot = Slot(chapter: string, lesson: string)

  /** The lessons of one chapter, in order. */
  function ChapterSlots(ch: Chapter): (r: seq<Slot>)
    ensures |r| == |ch.lessons|
    ensures forall j :: 0 <= j < |ch.lessons| ==> r[j] == Slot(ch.title, ch.lessons[j])
  {
    seq(|ch.lessons|, j requires 0 <= j < |ch.lessons| => Slot(ch.title, ch.lessons[j]))
  }

  /** The lessons of a curriculum, chapter by chapter. */
  function Flatten(chs: seq<Chapter>): seq<Slot>
  {
    if chs == [] then [] else Flatten(chs[..|chs| - 1]) + ChapterSlots(chs[|chs| - 1])
  }

  /** The number of lessons across all chapters. */
  function LessonCount(chs: seq<Chapter>): nat
  {
    if chs == [] then 0 else LessonCount(chs[..|chs| - 1]) + |chs[|chs| - 1].lessons|
  }

  /** One entry per lesson: the flattened list is as long as all chapters'
      lesson lists together (empty for an empty curriculum). */
  lemma {:induction false} FlattenLength(chs: seq<Chapter>)
    ensures |Flatten(chs)| == LessonCount(chs)
  {
    if chs != [] {
      FlattenLength(chs[..|chs| - 1]);
    }
  }

  lemma {:induction false} FlattenSplit(a: seq<Chapter>, b: seq<Chapter>)
    ensures Flatten(a + b) == Flatten(a) + Flatten(b)
    decreases |b|
  {
    if b == [] {
      assert a + b == a;
    } else {
      var b', last := b[..|b| - 1], b[|b| - 1];
      var ab := a + b;
      assert ab[..|ab| - 1] == a + b';
      assert ab[|ab| - 1] == last;
      assert Flatten(ab) == Flatten(a + b') + ChapterSlots(last);
      assert Flatten(b) == Flatten(b') + ChapterSlots(last);
      FlattenSplit(a, b');
    }
  }

  /** Chapter-major order: lesson `j` of chapter `i` comes after all lessons
      of the chapters before `i` and after the lessons before it in its own
      chapter. */
  lemma FlattenIsChapterMajor(chs: seq<Chapter>, i: nat, j: nat)
    requires i < |chs| && j < |chs[i].lessons|
    ensures LessonCount(chs[..i]) + j < |Flatten(chs)|
    ensures Flatten(chs)[LessonCount(chs[..i]) + j] == Slot(chs[i].title, chs[i].lessons[j])
  {
    assert chs == chs[..i + 1] + chs[i + 1..];
    FlattenSplit(chs[..i + 1], chs[i + 1..]);
    assert chs[..i + 1][..i] == chs[..i];
    FlattenLength(chs[..i]);
  }

  /** The lesson records for a list of lessons; `None` when an encoder call
      raises. */
  function Entries(slots: seq<Slot>, encode: Encoder): Option<seq<LessonRecord>>
  {
    if slots == [] then Some([])
    else
      var init, last := slots[..|slots| - 1], slots[|slots| - 1];
      match Entries(init, encode)
      case None => None
      case Some(done) =>
        match encode(LessonText(last.chapter, last.lesson))
        case None => None
        case Some(v) => Some(done + [LessonRecord(Some(last.lesson), Some(last.chapter), Some(v))])
  }

  /** The records succeed exactly when every lesson text encodes, and then
      there is one record per lesson, in order, holding the lesson title, the
      chapter title and the embedding of `"{chapter} : {lesson}"`. */
  lemma {:induction false} EntriesSpec(slots: seq<Slot>, encode: Encoder)
    ensures Entries(slots, encode).Some? <==>
      forall k :: 0 <= k < |slots| ==> encode(LessonText(slots[k].chapter, slots[k].lesson)).Some?
    ensures Entries(slots, encode).Some? ==> |Entries(slots, encode).value| == |slots|
    ensures Entries(slots, encode).Some? ==> forall k :: 0 <= k < |slots| ==>
      Entries(slots, encode).value[k] == LessonRecord(Some(slots[k].lesson), Some(slots[k].chapter),
                                                      encode(LessonText(slots[k].chapter, slots[k].lesson)))
  {
    if slots != [] {
      var init := slots[..|slots| - 1];
      EntriesSpec(init, encode);
      assert forall k :: 0 <= k < |init| ==> init[k] == slots[k];
    }
  }

  /** Encoding lesson `j` of a chapter appends exactly its record. */
  lemma EntriesAppendOne(prefix: seq<Slot>, slots: seq<Slot>, j: nat, encode: Encoder)
    requires j < |slots|
    requires Entries(prefix + slots[..j], encode).Some?
    requires encode(LessonText(slots[j].chapter, slots[j].lesson)).Some?
    ensures Entries(prefix + slots[..j + 1], encode)
         == Some(Entries(prefix + slots[..j], encode).value
                 + [LessonRecord(Some(slots[j].lesson), Some(slots[j].chapter), encode(LessonText(slots[j].chapter, slots[j].lesson)))])
  {
    var done, next := prefix + slots[..j], prefix + slots[..j + 1];
    assert next[..|next| - 1] == done;
    assert next[|next| - 1] == slots[j];
  }

  /** A lesson whose text does not encode makes the whole list fail. */
  lemma EntriesFailAt(chs: seq<Chapter>, i: nat, j: nat, encode: Encoder)
    requires i < |chs| && j < |chs[i].lessons|
    requires encode(LessonText(chs[i].title, chs[i].lessons[j])).None?
    ensures Entries(Flatten(chs), encode).None?
  {
    FlattenIsChapterMajor(chs, i, j);
    EntriesSpec(Flatten(chs), encode);
  }

  /** Taking one more chapter appends its lessons. */
  lemma FlattenStep(chs: seq<Chapter>, i: nat)
    requires i < |chs|
    ensures Flatten(chs[..i + 1]) == Flatten(chs[..i]) + ChapterSlots(chs[i])
  {
    assert chs[..i + 1][..i] == chs[..i];
  }

  /** The nested chapter/lesson loop that builds `lesson_embeddings`. */
  method BuildLessonEmbeddings(curriculum: seq<Chapter>, encode: Encoder)
    returns (lessonEmbeddings: Option<seq<LessonRecord>>)
    ensures lessonEmbeddings == Entries(Flatten(curriculum), encode)
  {
    var built: seq<LessonRecord> := [];
    for i := 0 to |curriculum|
      invariant Entries(Flatten(curriculum[..i]), encode) == Some(built)
    {
      var chapter, lessons := curriculum[i].title, curriculum[i].lessons;
      var slots := ChapterSlots(curriculum[i]);
      var prefix := Flatten(curriculum[..i]);
      assert prefix + slots[..0] == prefix;
      for j := 0 to |lessons|
        invariant Entries(prefix + slots[..j], encode) == Some(built)
      {
        var lessonText := LessonText(chapter, lessons[j]);
        var lessonEmbedding := encode(lessonText);
        if lessonEmbedding.None? {
          EntriesFailAt(curriculum, i, j, encode);
          return None;
        }
        EntriesAppendOne(prefix, slots, j, encode);
        built := built + [LessonRecord(Some(lessons[j]), Some(chapter), lessonEmbedding)];
      }
      FlattenStep(curriculum, i);
      assert slots[..|lessons|] == slots;
    }
    assert curriculum[..|curriculum|] == curriculum;
    lessonEmbeddings := Some(built);
  }

  /** The course after one iteration of the script's loop, or `None` when
      the iteration raises. */
  function Embedded(c: Course, encode: Encoder): Option<Course>
  {
    if c.title.None? || encode(c.title.value).None? then None
    else if c.smallDescription.None? || c.description.None? then None
    else if encode(SummaryText(c.smallDescription.value, c.description.value)).None? then None
    else if c.curriculum.None? then None
    else match Entries(Flatten(c.curriculum.value), encode)
      case None => None
      case Some(entries) =>
        Some(c.(titleEmbedding := encode(c.title.value),
                sldEmbedding := encode(SummaryText(c.smallDescription.value, c.description.value)),
                lessonEmbeddings := Some(entries)))
  }

  /** The scraped keys of a course, the ones the script never writes. */
  predicate SameScrapedFields(before: Course, after: Course)
  {
    && after.title == before.title
    && after.smallDescription == before.smallDescription
    && after.url == before.url
    && after.description == before.description
    && after.curriculum == before.curriculum
  }

  /** An embedded course keeps every scraped key unchanged and gains exactly
      the three embedding keys: the title's, the summary's and the lessons'
      in chapter-major order. The iteration fails exactly when a key it reads
      is missing or an encoder call raises; `url` is not read. */
  lemma EmbeddedShape(c: Course, encode: Encoder)
    ensures Embedded(c, encode).Some? <==>
      && c.title.Some? && c.smallDescription.Some? && c.description.Some? && c.curriculum.Some?
      && encode(c.title.value).Some?
      && encode(SummaryText(c.smallDescription.value, c.description.value)).Some?
      && forall k :: 0 <= k < |Flatten(c.curriculum.value)| ==>
           var s := Flatten(c.curriculum.value)[k]; encode(LessonText(s.chapter, s.lesson)).Some?
    ensures Embedded(c, encode).Some? ==>
      var e := Embedded(c, encode).value;
      && SameScrapedFields(c, e)
      && e.titleEmbedding == encode(c.title.value)
      && e.sldEmbedding == encode(SummaryText(c.smallDescription.value, c.description.value))
      && e.lessonEmbeddings.Some?
      && |e.lessonEmbeddings.value| == LessonCount(c.curriculum.value)
  {
    if c.curriculum.Some? {
      FlattenLength(c.curriculum.value);
      EntriesSpec(Flatten(c.curriculum.value), encode);
    }
  }

  /** Lesson `j` of chapter `i` is recorded at its chapter-major position,
      with its lesson and chapter titles unchanged and the embedding of
      `"{chapter} : {lesson}"`. */
  lemma EmbeddedLesson(c: Course, encode: Encoder, i: nat, j: nat)
    requires Embedded(c, encode).Some?
    requires i < |c.curriculum.value| && j < |c.curriculum.value[i].lessons|
    ensures var entries, chs := Embedded(c, encode).value.lessonEmbeddings.value, c.curriculum.value;
      && LessonCount(chs[..i]) + j < |entries|
      && entries[LessonCount(chs[..i]) + j]
         == LessonRecord(Some(chs[i].lessons[j]), Some(chs[i].title),
                         encode(LessonText(chs[i].title, chs[i].lessons[j])))
  {
    FlattenIsChapterMajor(c.curriculum.value, i, j);
    EntriesSpec(Flatten(c.curriculum.value), encode);
  }

  /** The records the script writes are the ones the search reads: when the
      similarity accepts the query against every vector encoded for this
      course, the embedded course always gets its scores. */
  lemma EmbeddedIsScorable(c: Course, encode: Encoder, q: Vector, sim: Similarity)
    requires Embedded(c, encode).Some?
    requires c.title.Some? && encode(c.title.value).Some? && sim(q, encode(c.title.value).value).Some?
    requires c.smallDescription.Some? && c.description.Some?
    requires var t := encode(SummaryText(c.smallDescription.value, c.description.value));
      t.Some? && sim(q, t.value).Some?
    requires c.curriculum.Some?
    requires forall k :: 0 <= k < |Flatten(c.curriculum.value)| ==>
      var s := Flatten(c.curriculum.value)[k];
      var e := encode(LessonText(s.chapter, s.lesson));
      e.Some? && sim(q, e.value).Some?
    ensures Scoring.Score(q, Embedded(c, encode).value, sim).Some?
  {
    var e := Embedded(c, encode).value;
    var entries := e.lessonEmbeddings.value;
    var slots := Flatten(c.curriculum.value);
    EntriesSpec(slots, encode);
    forall k | 0 <= k < |entries| ensures Scoring.LessonScorable(q, entries[k], sim) {
      assert entries[k].embedding == encode(LessonText(slots[k].chapter, slots[k].lesson));
    }
  }

  /** The script's loop over the loaded courses, updating each course record
      in place. On failure the courses before the failing one are embedded,
      the failing one may have gained some embedding keys, and the rest are
      untouched. */
  method EmbedCatalog(courses: array<Course>, encode: Encoder) returns (ok: bool)
    modifies courses
    ensures ok <==> forall k :: 0 <= k < courses.Length ==> Embedded(old(courses[k]), encode).Some?
    ensures ok ==> forall k :: 0 <= k < courses.Length ==> Embedded(old(courses[k]), encode) == Some(courses[k])
    ensures !ok ==> exists f ::
      && 0 <= f < courses.Length
      && Embedded(old(courses[f]), encode).None?
      && SameScrapedFields(old(courses[f]), courses[f])
      && (forall k :: 0 <= k < f ==> Embedded(old(courses[k]), encode) == Some(courses[k]))
      && (forall k :: f < k < courses.Length ==> courses[k] == old(courses[k]))
  {
    for i := 0 to courses.Length
      invariant forall k :: 0 <= k < i ==> Embedded(old(courses[k]), encode) == Some(courses[k])
      invariant forall k :: i <= k < courses.Length ==> courses[k] == old(courses[k])
    {
      var course := courses[i];
      if course.title.None? {
        assert Embedded(course, encode).None?;
        return false;
      }
      var titleEmbedding := encode(course.title.value);
      if titleEmbedding.None? || course.smallDescription.None? || course.description.None? {
        assert Embedded(course, encode).None?;
        return false;
      }
      var summaryText := SummaryText(course.smallDescription.value, course.description.value);
      var summaryEmbedding := encode(summaryText);
      if summaryEmbedding.None? {
        assert Embedded(course, encode).None?;
        return false;
      }
      var updated := course.(titleEmbedding := titleEmbedding, sldEmbedding := summaryEmbedding);
      courses[i] := updated;
      if course.curriculum.None? {
        assert Embedded(course, encode).None?;
        return false;
      }
      var lessonEmbeddings := BuildLessonEmbeddings(course.curriculum.value, encode);
      if lessonEmbeddings.None? {
        assert Embedded(course, encode).None?;
        return false;
      }
      courses[i] := updated.(lessonEmbeddings := lessonEmbeddings);
      assert Embedded(course, encode) == Some(courses[i]);
    }
    ok := true;
  }
}
