/** The batch loop: scrape every URL in order, keep the cards of the pages that
    succeed, count successes and failures, and never let one failure stop the rest. */
module Batch {
  import opened Types
  import opened Seqs
  import opened Cards
  import opened Extract

  /** What scraping one URL produced. */
  type Outcome = Result<seq<Flashcard>, ScrapeError>

  /** The cards one outcome contributes: its cards on success, none on failure. */
  function Payload(o: Outcome): seq<Flashcard> {
    match o
    case Ok(cards) => cards
    case Err(_) => []
  }

  /** All cards of the successful outcomes, grouped by URL in URL order. */
  function Collected(os: seq<Outcome>): seq<Flashcard>
    decreases |os|
  {
    if os == [] then [] else Collected(os[..|os| - 1]) + Payload(os[|os| - 1])
  }

  /** Number of successful outcomes. */
  function Successes(os: seq<Outcome>): nat
    decreases |os|
  {
    if os == [] then 0 else Successes(os[..|os| - 1]) + (if os[|os| - 1].Ok? then 1 else 0)
  }

  /** Number of failed outcomes. */
  function Failures(os: seq<Outcome>): nat
    decreases |os|
  {
    if os == [] then 0 else Failures(os[..|os| - 1]) + (if os[|os| - 1].Err? then 1 else 0)
  }

  /** The batch loop of the tool. */
  method RunBatch(os: seq<Outcome>) returns (allCards: seq<Flashcard>, successful: nat, failed: nat)
    ensures allCards == Collected(os)
    ensures successful == Successes(os)
    ensures failed == Failures(os)
    ensures successful + failed == |os|
  {
    allCards, successful, failed := [], 0, 0;
    for i := 0 to |os|
      invariant allCards == Collected(os[..i])
      invariant successful == Successes(os[..i])
      invariant failed == Failures(os[..i])
      invariant successful + failed == i
    {
      assert os[..i + 1][..i] == os[..i];
      match os[i]
      case Ok(cards) =>
        allCards := allCards + cards;
        successful := successful + 1;
      case Err(_) =>
        failed := failed + 1;
    }
    assert os[..|os|] == os;
  }

  /** Every URL is counted once, as a success or as a failure. */
  lemma {:induction false} SuccessesPlusFailures(os: seq<Outcome>)
    ensures Successes(os) + Failures(os) == |os|
    decreases |os|
  {
    if os != [] {
      SuccessesPlusFailures(os[..|os| - 1]);
    }
  }

  /** Collecting two runs of outcomes one after the other is collecting their concatenation. */
  lemma {:induction false} CollectedAppend(a: seq<Outcome>, b: seq<Outcome>)
    ensures Collected(a + b) == Collected(a) + Collected(b)
    decreases |b|
  {
    if b == [] {
      assert a + b == a;
    } else {
      var b0, last := b[..|b| - 1], b[|b| - 1];
      var ab := a + b;
      CollectedAppend(a, b0);
      LastSplit(a, b);
      calc {
        Collected(ab);
        Collected(a + b0) + Payload(last);
        (Collected(a) + Collected(b0)) + Payload(last);
        Collected(a) + (Collected(b0) + Payload(last));
      }
    }
  }

  lemma CollectedSingle(o: Outcome)
    ensures Collected([o]) == Payload(o)
  {
    assert [o][..0] == [];
  }

  /** The cards of URL `k` sit, whole, between the cards of the URLs before it and
      the cards of the URLs after it. */
  lemma {:induction false} CollectedAround(os: seq<Outcome>, k: nat)
    requires k < |os|
    ensures Collected(os) == Collected(os[..k]) + Payload(os[k]) + Collected(os[k + 1..])
  {
    var before, here, after := os[..k], [os[k]], os[k + 1..];
    calc {
      Collected(os);
      { SplitAt(os, k); }
      Collected((before + here) + after);
      { CollectedAppend(before + here, after); }
      Collected(before + here) + Collected(after);
      { CollectedAppend(before, here); CollectedSingle(os[k]); }
      Collected(before) + Payload(os[k]) + Collected(after);
    }
  }

  /** Failure isolation: if URL `k` fails instead, exactly its own cards go missing
      and every other URL's cards stay, in the same order; the failure count grows
      by one when it had succeeded. */
  lemma FailureIsIsolated(os: seq<Outcome>, k: nat, e: ScrapeError)
    requires k < |os|
    ensures Collected(os[k := Err(e)]) == Collected(os[..k]) + Collected(os[k + 1..])
    ensures Failures(os[k := Err(e)]) == Failures(os) + (if os[k].Ok? then 1 else 0)
  {
    FailureDropsOwnCards(os, k, e);
    FailureCounted(os, k, e);
  }

  lemma FailureDropsOwnCards(os: seq<Outcome>, k: nat, e: ScrapeError)
    requires k < |os|
    ensures Collected(os[k := Err(e)]) == Collected(os[..k]) + Collected(os[k + 1..])
  {
    UpdateKeepsRest(os, k, Err(e));
    CollectedAround(os[k := Err(e)], k);
  }

  lemma FailureCounted(os: seq<Outcome>, k: nat, e: ScrapeError)
    requires k < |os|
    ensures Failures(os[k := Err(e)]) == Failures(os) + (if os[k].Ok? then 1 else 0)
  {
    UpdateKeepsRest(os, k, Err(e));
    FailuresAround(os, k);
    FailuresAround(os[k := Err(e)], k);
  }

  lemma {:induction false} FailuresAround(os: seq<Outcome>, k: nat)
    requires k < |os|
    ensures Failures(os) == Failures(os[..k]) + (if os[k].Err? then 1 else 0) + Failures(os[k + 1..])
  {
    var before, here, after := os[..k], [os[k]], os[k + 1..];
    SplitAt(os, k);
    FailuresAppend(before + here, after);
    FailuresAppend(before, here);
    assert here[..0] == [];
  }

  lemma {:induction false} FailuresAppend(a: seq<Outcome>, b: seq<Outcome>)
    ensures Failures(a + b) == Failures(a) + Failures(b)
    decreases |b|
  {
    if b == [] {
      assert a + b == a;
    } else {
      FailuresAppend(a, b[..|b| - 1]);
      LastSplit(a, b);
    }
  }

  /** A card is collected exactly when some successful URL produced it. */
  lemma {:induction false} CollectedMembers(os: seq<Outcome>, c: Flashcard)
    ensures c in Collected(os) <==> exists i :: 0 <= i < |os| && c in Payload(os[i])
    decreases |os|
  {
    if os != [] {
      var init := os[..|os| - 1];
      CollectedMembers(init, c);
      assert forall i :: 0 <= i < |init| ==> init[i] == os[i];
    }
  }
}
