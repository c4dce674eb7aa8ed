/** The course records that the offline scripts produce and the search reads.

    A course is a JSON object; a key that the object may lack is an `Option`
    field (`None` stands for the missing key and makes `course[key]` raise
    `KeyError`). */
module Catalog {
  import opened Wrappers

  /** An embedding vector, as stored by `.tolist()`. */
  type Vector = seq<real>

  /** The sentence encoder (`model.encode`); `None` means the call raised. */
  type Encoder = string -> Option<Vector>

  /** `cosine_similarity([u], [v])[0][0]`; `None` means the call raised
      (for instance on vectors of different lengths). */
  type Similarity = (Vector, Vector) -> Option<real>

  /** One chapter of a scraped curriculum: its title and its lesson titles,
      in page order. The curriculum is a dictionary from chapter title to
      lessons, kept here as its items in insertion order. */
  datatype Chapter = Chapter(title: string, lessons: seq<string>)

  /** One entry of `lesson_embeddings`. */
  datatype LessonRecord = LessonRecord(
    lesson: Option<string>,
    chapter: Option<string>,
    embedding: Option<Vector>)

  /** One course object. The first five keys come from the scraper, the last
      three are added by the embedding script. */
  datatype Course = Course(
    title: Option<string>,
    smallDescription: Option<string>,
    url: Option<string>,
    description: Option<string>,
    curriculum: Option<seq<Chapter>>,
    titleEmbedding: Option<Vector>,
    sldEmbedding: Option<Vector>,
    lessonEmbeddings: Option<seq<LessonRecord>>)
}
