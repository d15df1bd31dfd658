/** The tool's one domain entity. */
module Cards {
  import opened Text

  /** One front/back pair destined for spaced-repetition import. */
  datatype Flashcard = Flashcard(front: string, back: string)

  /** What extraction guarantees of every card it emits: both sides non-empty
      and without surrounding whitespace. */
  predicate ValidCard(c: Flashcard) {
    && c.front != [] && IsTrimmed(c.front)
    && c.back != [] && IsTrimmed(c.back)
  }
}
