/** Turning one rendered card-set page into flashcards. The page is given as the
    sequence of its pair-list items, each item as the texts of its info spans in
    document order (every text already being the concatenation of the text nodes
    under its span). */
module Extract {
  import opened Types
  import opened Text
  import opened Seqs
  import opened Cards

  /** The card one pair-list item yields: its first two texts, trimmed, when it has
      at least two and neither is blank. Further texts are ignored. */
  function CardOf(infos: seq<string>): (r: Option<Flashcard>)
    ensures r.Some? <==> |infos| >= 2 && !AllWhitespace(infos[0]) && !AllWhitespace(infos[1])
    ensures r.Some? ==> ValidCard(r.value)
    ensures r.Some? ==> r.value.front == Trim(infos[0]) && r.value.back == Trim(infos[1])
  {
    if |infos| < 2 then None
    else
      var front, back := Trim(infos[0]), Trim(infos[1]);
      if front == [] || back == [] then None else Some(Flashcard(front, back))
  }

  /** Texts after the second one never change the card. */
  lemma CardOfIgnoresExtraTexts(infos: seq<string>, extra: seq<string>)
    requires |infos| == 2
    ensures CardOf(infos + extra) == CardOf(infos)
  {
    assert (infos + extra)[0] == infos[0] && (infos + extra)[1] == infos[1];
  }

  /** The cards of a page, one per qualifying pair-list item, in document order. */
  function SelectCards(pairs: seq<seq<string>>): (cards: seq<Flashcard>)
    ensures |cards| <= |pairs|
    ensures forall k :: 0 <= k < |cards| ==> ValidCard(cards[k])
    ensures forall i :: 0 <= i < |pairs| && CardOf(pairs[i]).Some? ==> CardOf(pairs[i]).value in cards
    ensures cards == [] <==> forall i :: 0 <= i < |pairs| ==> CardOf(pairs[i]).None?
  {
    SelectedCardsAreValid(pairs);
    FilterMapEmpty(CardOf, pairs);
    FilterMap(CardOf, pairs)
  }

  lemma SelectedCardsAreValid(pairs: seq<seq<string>>)
    ensures forall k :: 0 <= k < |FilterMap(CardOf, pairs)| ==> ValidCard(FilterMap(CardOf, pairs)[k])
  {
    KeptIndicesMatchValues(CardOf, pairs);
  }

  /** An item yields a card exactly when it has two non-blank leading texts; the
      cards are those items' trimmed texts, in item order. */
  lemma {:induction false} SelectCardsInOrder(pairs: seq<seq<string>>)
    ensures var cards, idx := SelectCards(pairs), KeptIndices(CardOf, pairs);
      && |idx| == |cards|
      && StrictlyIncreasing(idx)
      && (forall k :: 0 <= k < |idx| ==>
            && idx[k] < |pairs| && |pairs[idx[k]]| >= 2
            && cards[k] == Flashcard(Trim(pairs[idx[k]][0]), Trim(pairs[idx[k]][1])))
      && (forall i :: 0 <= i < |pairs| ==>
            (i in idx <==> |pairs[i]| >= 2 && !AllWhitespace(pairs[i][0]) && !AllWhitespace(pairs[i][1])))
  {
    FilterMapIsOrderedSelection(CardOf, pairs);
  }

  /** Why loading a page can fail: the tab cannot be opened, navigation fails, the
      pair list never appears, or the rendered document cannot be retrieved. */
  datatype ScrapeError = TabFailed | NavigationFailed | Timeout | ContentFailed

  /** What the browser delivers for one URL. */
  datatype Page = Failed(error: ScrapeError) | Rendered(pairs: seq<seq<string>>)

  /** Scraping one URL fails as a whole or yields every card of the page; a page
      with no qualifying items is a success with no cards, not an error. */
  function ScrapeFlashcards(page: Page): (r: Result<seq<Flashcard>, ScrapeError>)
    ensures r.Err? <==> page.Failed?
    ensures r.Err? ==> r.error == page.error
    ensures r.Ok? ==> r.value == SelectCards(page.pairs)
    ensures r.Ok? ==> forall k :: 0 <= k < |r.value| ==> ValidCard(r.value[k])
    ensures r.Ok? ==> (r.value == [] <==> forall i :: 0 <= i < |page.pairs| ==> CardOf(page.pairs[i]).None?)
  {
    match page
    case Failed(e) => Err(e)
    case Rendered(pairs) => Ok(SelectCards(pairs))
  }
}
