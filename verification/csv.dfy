/** Serialisation of flashcards into the two-column comma-separated file Anki imports:
    field escaping (rules 6 and 7 of section 2 of RFC 4180, except that a lone
    carriage return does not force quoting) and one `front,back` line per card. */
module Csv {
  import opened Text
  import opened Cards

  /** A field is quoted exactly when it holds a comma, a double quote or a line feed. */
  predicate NeedsQuoting(field: string) {
    ',' in field || '"' in field || '\n' in field
  }

  /** `text` with every double quote written twice. */
  function DoubleQuotes(text: string): string {
    if text == [] then []
    else
      var head := if text[0] == '"' then "\"\"" else [text[0]];
      head + DoubleQuotes(text[1..])
  }

  /** Doubling adds one character per double quote. */
  lemma {:induction false} DoubleQuotesLength(text: string)
    ensures |DoubleQuotes(text)| == |text| + Count(text, '"')
  {
    if text != [] {
      DoubleQuotesLength(text[1..]);
    }
  }

  /** Text without double quotes needs no doubling. */
  lemma {:induction false} DoubleQuotesOfQuoteFree(text: string)
    requires '"' !in text
    ensures DoubleQuotes(text) == text
  {
    if text != [] {
      assert text[0] != '"';
      DoubleQuotesOfQuoteFree(text[1..]);
    }
  }

  /** One field as written: verbatim when it needs no quoting, otherwise wrapped in
      double quotes with its inner double quotes doubled. */
  function EscapeCsv(text: string): (r: string)
    ensures !NeedsQuoting(text) ==> r == text
    ensures NeedsQuoting(text) ==>
      && |r| == |text| + 2 + Count(text, '"')
      && r[0] == '"' && r[|r| - 1] == '"'
    ensures (r != [] && r[0] == '"') <==> NeedsQuoting(text)
  {
    if NeedsQuoting(text) then
      DoubleQuotesLength(text);
      "\"" + DoubleQuotes(text) + "\""
    else text
  }

  /** One line of the file: both escaped fields, a comma between them, a line feed after. */
  function FormatRecord(card: Flashcard): string {
    EscapeCsv(card.front) + "," + EscapeCsv(card.back) + "\n"
  }

  /** The whole file content: one record per card, in card order, and no header line. */
  function WriteCsv(cards: seq<Flashcard>): (r: string)
    ensures r == [] <==> cards == []
    ensures Count(r, '\n') >= |cards|
  {
    if cards == [] then []
    else
      var head := FormatRecord(cards[0]);
      var tail := WriteCsv(cards[1..]);
      CountAppend(EscapeCsv(cards[0].front) + "," + EscapeCsv(cards[0].back), "\n", '\n');
      CountAppend(head, tail, '\n');
      head + tail
  }

  /** A non-empty file is the first card's record followed by the file of the others. */
  lemma WriteCsvCons(cards: seq<Flashcard>)
    requires cards != []
    ensures WriteCsv(cards) == FormatRecord(cards[0]) + WriteCsv(cards[1..])
  {
  }

  /** Writing two card lists one after the other gives the file of their concatenation. */
  lemma {:induction false} WriteCsvAppend(a: seq<Flashcard>, b: seq<Flashcard>)
    ensures WriteCsv(a + b) == WriteCsv(a) + WriteCsv(b)
  {
    if a == [] {
      assert a + b == b;
    } else {
      assert (a + b)[0] == a[0];
      assert (a + b)[1..] == a[1..] + b;
      WriteCsvAppend(a[1..], b);
    }
  }
}
