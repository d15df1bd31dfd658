/** Reading the list of card-set pages: one URL per line, trimmed, with blank
    lines and `#` comment lines dropped. */
module Urls {
  import opened Types
  import opened Text
  import opened Seqs

  /** A trimmed line names a URL unless it is empty or starts with `#`. */
  predicate IsUrlLine(t: string) {
    t != [] && t[0] != '#'
  }

  /** The URL a raw line contributes, if any. */
  function UrlOf(line: string): Option<string> {
    var t := Trim(line);
    if IsUrlLine(t) then Some(t) else None
  }

  /** The URLs named by `lines`: each line trimmed, blank and comment lines dropped. */
  function ReadUrls(lines: seq<string>): (urls: seq<string>)
    ensures |urls| <= |lines|
    ensures forall k :: 0 <= k < |urls| ==> IsUrlLine(urls[k]) && IsTrimmed(urls[k])
    ensures forall i :: 0 <= i < |lines| && IsUrlLine(Trim(lines[i])) ==> Trim(lines[i]) in urls
    ensures urls == [] <==> forall i :: 0 <= i < |lines| ==> !IsUrlLine(Trim(lines[i]))
  {
    KeptUrlsAreUrlLines(lines);
    FilterMapEmpty(UrlOf, lines);
    FilterMap(UrlOf, lines)
  }

  lemma KeptUrlsAreUrlLines(lines: seq<string>)
    ensures forall k :: 0 <= k < |FilterMap(UrlOf, lines)| ==>
      IsUrlLine(FilterMap(UrlOf, lines)[k]) && IsTrimmed(FilterMap(UrlOf, lines)[k])
  {
    KeptIndicesMatchValues(UrlOf, lines);
  }

  /** The URLs are exactly the URL lines, trimmed, in file order. */
  lemma {:induction false} ReadUrlsInOrder(lines: seq<string>)
    ensures var urls, idx := ReadUrls(lines), KeptIndices(UrlOf, lines);
      && |idx| == |urls|
      && StrictlyIncreasing(idx)
      && (forall k :: 0 <= k < |idx| ==> idx[k] < |lines| && urls[k] == Trim(lines[idx[k]]))
      && (forall i :: 0 <= i < |lines| ==> (i in idx <==> IsUrlLine(Trim(lines[i]))))
  {
    UrlLinesInOrder(lines);
  }

  lemma UrlLinesInOrder(lines: seq<string>)
    ensures var urls, idx := FilterMap(UrlOf, lines), KeptIndices(UrlOf, lines);
      && |idx| == |urls|
      && StrictlyIncreasing(idx)
      && (forall k :: 0 <= k < |idx| ==> idx[k] < |lines| && urls[k] == Trim(lines[idx[k]]))
      && (forall i :: 0 <= i < |lines| ==> (i in idx <==> IsUrlLine(Trim(lines[i]))))
  {
    FilterMapIsOrderedSelection(UrlOf, lines);
  }

  /** A list that is already clean reads back unchanged, so reading is idempotent. */
  lemma {:induction false} ReadUrlsIdempotent(lines: seq<string>)
    ensures ReadUrls(ReadUrls(lines)) == ReadUrls(lines)
    decreases |lines|
  {
    if lines != [] {
      var init := lines[..|lines| - 1];
      ReadUrlsIdempotent(init);
      var urls0 := ReadUrls(init);
      match UrlOf(lines[|lines| - 1])
      case None =>
      case Some(u) =>
        var urls := urls0 + [u];
        assert urls[..|urls| - 1] == urls0;
        TrimOfTrimmed(u);
    }
  }

  /** The URL list file as the tool finds it. */
  datatype UrlFile = Missing | Unopenable | Present(lines: seq<string>)

  datatype ReadError = NotFound | OpenFailed

  /** Reading the URL list file: a missing file and one that cannot be opened are errors. */
  function ReadUrlsFromFile(file: UrlFile): (r: Result<seq<string>, ReadError>)
    ensures r == Err(NotFound) <==> file.Missing?
    ensures r == Err(OpenFailed) <==> file.Unopenable?
    ensures r.Ok? ==> file.Present? && r.value == ReadUrls(file.lines)
    ensures r.Ok? ==> forall k :: 0 <= k < |r.value| ==> IsUrlLine(r.value[k]) && IsTrimmed(r.value[k])
    ensures r.Ok? ==> (r.value == [] <==>
      forall i :: 0 <= i < |file.lines| ==> !IsUrlLine(Trim(file.lines[i])))
  {
    match file
    case Missing => Err(NotFound)
    case Unopenable => Err(OpenFailed)
    case Present(lines) => Ok(ReadUrls(lines))
  }
}
