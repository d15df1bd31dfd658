/** A reader for exactly the file format `Csv` writes: `front,back` records, each
    ended by a line feed, with fields quoted as in rules 5-7 of section 2 of
    RFC 4180 (quoted fields with doubled inner quotes). Unlike RFC 4180, records
    end at a line feed rather than CR LF, the last record also needs one, and a
    bare CR is accepted inside an unquoted field. It is the inverse against which
    the writer is checked: reading what was written gives back the original
    fields and cards. */
module CsvRead {
  import opened Types
  import opened Text
  import opened Cards
  import opened Csv

  /** What may follow a field: the end of input, a separating comma or a line end. */
  predicate EndsField(rest: string) {
    rest == [] || rest[0] == ',' || rest[0] == '\n'
  }

  /** Reads the inside of a quoted field whose opening quote is already consumed:
      `""` stands for one quote and a lone quote closes the field. Yields the field
      and whatever follows the closing quote; `None` when no closing quote comes. */
  function ReadQuoted(s: string): (r: Option<(string, string)>)
    ensures r.Some? ==> |r.value.1| < |s|
    decreases |s|
  {
    if s == [] then None
    else if s[0] == '"' then
      if |s| >= 2 && s[1] == '"' then
        match ReadQuoted(s[2..])
        case None => None
        case Some((f, rest)) => Some(("\"" + f, rest))
      else Some(([], s[1..]))
    else
      match ReadQuoted(s[1..])
      case None => None
      case Some((f, rest)) => Some(([s[0]] + f, rest))
  }

  /** Reads an unquoted field: everything up to the next comma, line feed or end. */
  function ReadBare(s: string): (r: (string, string))
    ensures r.0 + r.1 == s
    ensures ',' !in r.0 && '\n' !in r.0
    ensures EndsField(r.1)
  {
    if s == [] || s[0] == ',' || s[0] == '\n' then ([], s)
    else
      var tail := ReadBare(s[1..]);
      assert s == [s[0]] + s[1..];
      ([s[0]] + tail.0, tail.1)
  }

  /** Reads one field from the front of `s`, quoted or bare; a bare field may not
      contain a double quote. Yields the field's value and the unread remainder. */
  function ReadField(s: string): (r: Option<(string, string)>)
    ensures r.Some? ==> |r.value.1| <= |s|
  {
    if s != [] && s[0] == '"' then ReadQuoted(s[1..])
    else
      var (f, rest) := ReadBare(s);
      if '"' in f then None else Some((f, rest))
  }

  /** Undoes `EscapeCsv` on a complete field: strips the outer quotes of a quoted
      field and collapses each `""` to `"`, or takes a bare field verbatim. */
  function UnescapeCsv(s: string): Option<string> {
    match ReadField(s)
    case None => None
    case Some((f, rest)) => if rest == [] then Some(f) else None
  }

  /** Reads one `front,back` line. */
  function ReadRecord(s: string): (r: Option<(Flashcard, string)>)
    ensures r.Some? ==> |r.value.1| < |s|
  {
    match ReadField(s)
    case None => None
    case Some((front, rest1)) =>
      if rest1 == [] || rest1[0] != ',' then None
      else
        match ReadField(rest1[1..])
        case None => None
        case Some((back, rest2)) =>
          if rest2 == [] || rest2[0] != '\n' then None
          else Some((Flashcard(front, back), rest2[1..]))
  }

  /** Reads a whole file of `front,back` lines. */
  function ReadCsv(s: string): Option<seq<Flashcard>>
    decreases |s|
  {
    if s == [] then Some([])
    else
      match ReadRecord(s)
      case None => None
      case Some((card, rest)) =>
        match ReadCsv(rest)
        case None => None
        case Some(cards) => Some([card] + cards)
  }

  /** A lone quote closes the field. */
  lemma ReadQuotedClose(rest: string)
    requires rest == [] || rest[0] != '"'
    ensures ReadQuoted("\"" + rest) == Some(([], rest))
  {
    assert ("\"" + rest)[1..] == rest;
  }

  /** A doubled quote contributes one quote to the field. */
  lemma ReadQuotedEscapedQuote(after: string, f: string, rest: string)
    requires ReadQuoted(after) == Some((f, rest))
    ensures ReadQuoted("\"\"" + after) == Some(("\"" + f, rest))
  {
    assert ("\"\"" + after)[2..] == after;
  }

  /** Any other character is taken as it is. */
  lemma ReadQuotedPlain(c: char, after: string, f: string, rest: string)
    requires c != '"'
    requires ReadQuoted(after) == Some((f, rest))
    ensures ReadQuoted([c] + after) == Some(([c] + f, rest))
  {
    assert ([c] + after)[1..] == after;
  }

  /** Doubling the first character and reading it back extends what is read by that character. */
  lemma ReadQuotedOfDoubledStep(text: string, tail: string, rest: string)
    requires text != []
    requires ReadQuoted(DoubleQuotes(text[1..]) + tail) == Some((text[1..], rest))
    ensures ReadQuoted(DoubleQuotes(text) + tail) == Some((text, rest))
  {
    var d := DoubleQuotes(text[1..]);
    assert text == [text[0]] + text[1..];
    if text[0] == '"' {
      assert DoubleQuotes(text) + tail == "\"\"" + (d + tail);
      ReadQuotedEscapedQuote(d + tail, text[1..], rest);
    } else {
      assert DoubleQuotes(text) + tail == [text[0]] + (d + tail);
      ReadQuotedPlain(text[0], d + tail, text[1..], rest);
    }
  }

  /** A doubled-quote body followed by a closing quote reads back as the original text. */
  lemma {:induction false} ReadQuotedOfDoubled(text: string, rest: string)
    requires rest == [] || rest[0] != '"'
    ensures ReadQuoted(DoubleQuotes(text) + ("\"" + rest)) == Some((text, rest))
  {
    if text == [] {
      assert DoubleQuotes(text) + ("\"" + rest) == "\"" + rest;
      ReadQuotedClose(rest);
    } else {
      ReadQuotedOfDoubled(text[1..], rest);
      ReadQuotedOfDoubledStep(text, "\"" + rest, rest);
    }
  }

  /** A field that needs no quoting reads back bare, up to the separator after it. */
  lemma {:induction false} ReadBareOfPlain(text: string, rest: string)
    requires ',' !in text && '\n' !in text
    requires EndsField(rest)
    ensures ReadBare(text + rest) == (text, rest)
  {
    if text == [] {
      assert text + rest == rest;
    } else {
      assert (text + rest)[1..] == text[1..] + rest;
      assert text == [text[0]] + text[1..];
      ReadBareOfPlain(text[1..], rest);
    }
  }

  /** Reading an escaped field followed by a separator gives back the original field
      and leaves the separator unread. */
  lemma ReadFieldOfEscaped(text: string, rest: string)
    requires EndsField(rest)
    ensures ReadField(EscapeCsv(text) + rest) == Some((text, rest))
  {
    var s := EscapeCsv(text) + rest;
    if NeedsQuoting(text) {
      assert s == "\"" + (DoubleQuotes(text) + ("\"" + rest));
      assert s[1..] == DoubleQuotes(text) + ("\"" + rest);
      ReadQuotedOfDoubled(text, rest);
    } else {
      ReadBareOfPlain(text, rest);
      if text != [] {
        assert s[0] == text[0];
      }
    }
  }

  /** Field round trip: unescaping an escaped field recovers it exactly. */
  lemma UnescapeOfEscape(text: string)
    ensures UnescapeCsv(EscapeCsv(text)) == Some(text)
  {
    assert EscapeCsv(text) + [] == EscapeCsv(text);
    ReadFieldOfEscaped(text, []);
  }

  /** A written record reads back as its card, leaving what follows the line unread. */
  lemma ReadRecordOfFormatted(card: Flashcard, rest: string)
    ensures ReadRecord(FormatRecord(card) + rest) == Some((card, rest))
  {
    var second := EscapeCsv(card.back) + ("\n" + rest);
    FormatRecordShape(card, rest);
    ReadFieldOfEscaped(card.front, "," + second);
    ReadFieldOfEscaped(card.back, "\n" + rest);
    ReadRecordOfFields(FormatRecord(card) + rest, second, card, rest);
  }

  /** A record followed by more text is the front field, a comma, the back field,
      a line feed and that text. */
  lemma FormatRecordShape(card: Flashcard, rest: string)
    ensures FormatRecord(card) + rest
      == EscapeCsv(card.front) + ("," + (EscapeCsv(card.back) + ("\n" + rest)))
  {
  }

  /** A line whose two fields read as the card's front and back reads as the card. */
  lemma ReadRecordOfFields(s: string, second: string, card: Flashcard, rest: string)
    requires ReadField(s) == Some((card.front, "," + second))
    requires ReadField(second) == Some((card.back, "\n" + rest))
    ensures ReadRecord(s) == Some((card, rest))
  {
    assert ("," + second)[1..] == second;
    assert ("\n" + rest)[1..] == rest;
  }

  /** File round trip: reading the written file gives back every card, in order. */
  lemma {:induction false} ReadCsvOfWritten(cards: seq<Flashcard>)
    ensures ReadCsv(WriteCsv(cards)) == Some(cards)
  {
    if cards != [] {
      var s, rest := WriteCsv(cards), WriteCsv(cards[1..]);
      WriteCsvCons(cards);
      ReadRecordOfFormatted(cards[0], rest);
      ReadCsvOfWritten(cards[1..]);
      ReadCsvOfRecord(s, cards[0], rest, cards[1..]);
      assert [cards[0]] + cards[1..] == cards;
    }
  }

  /** A file that starts with a readable record reads as that card followed by the
      cards of the rest of the file. */
  lemma ReadCsvOfRecord(s: string, card: Flashcard, rest: string, cards: seq<Flashcard>)
    requires ReadRecord(s) == Some((card, rest))
    requires ReadCsv(rest) == Some(cards)
    ensures ReadCsv(s) == Some([card] + cards)
  {
  }
}
