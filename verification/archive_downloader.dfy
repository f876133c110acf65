/**
 `sme_archive_downloader.py`: for one page of the news listing, take the
 link of every article teaser, ask the Wayback Machine's availability API
 for a snapshot of it, and append the snapshot URLs found to the URL file.
 The listing fetch and each availability lookup are inputs (`Listing`,
 `LookupOutcome`); the parsed listing is a `Dom` tree.
 */
module ArchiveDownloader {
  import opened Python
  import opened Dom
  import opened Utils

  /* ---------------------------------------------------------------------- */
  /* is_wayback_archive_available                                            */
  /* ---------------------------------------------------------------------- */

  /** The object holds the key `k`. */
  predicate HasKey(v: Value, k: string) {
    v.VDict? && k in Keys(v.fields)
  }

  /** `v[k]` for a key the object holds. */
  function Get(v: Value, k: string): Value
    requires HasKey(v, k)
  {
    Subscript(v, k).value
  }

  /** The pair returned when a key is missing. */
  const NotAvailable: (Value, Value) := (VBool(false), VNone)

  /** The statements inside the `try`: four subscripts, the first failure
      raised. */
  function SnapshotLookup(v: Value): Result<(Value, Value), Exc> {
    var snapshots :- Subscript(v, "archived_snapshots");
    var closest :- Subscript(snapshots, "closest");
    var available :- Subscript(closest, "available");
    var url :- Subscript(closest, "url");
    Success((available, url))
  }

  /** `is_wayback_archive_available(archive_json)`: the `KeyError` of a
      missing key is caught; subscripting a non-dict raises `TypeError`,
      which is not. */
  function IsWaybackArchiveAvailable(v: Value): (r: Result<(Value, Value), Exc>)
    ensures r.Failure? ==> r.error == TypeError
  {
    match SnapshotLookup(v)
    case Failure(KeyError) => Success(NotAvailable)
    case other => other
  }

  /** The complete decoding: `(False, None)` whenever one of the four keys
      is missing from an object on the path, the pair
      `(closest['available'], closest['url'])` unchanged when all are
      present, and `TypeError` when the path runs into a non-dict. */
  lemma AvailabilityDecoding(v: Value)
    ensures IsWaybackArchiveAvailable(v) == (
      if !v.VDict? then Failure(TypeError)
      else if !HasKey(v, "archived_snapshots") then Success(NotAvailable)
      else
        var snapshots := Get(v, "archived_snapshots");
        if !snapshots.VDict? then Failure(TypeError)
        else if !HasKey(snapshots, "closest") then Success(NotAvailable)
        else
          var closest := Get(snapshots, "closest");
          if !closest.VDict? then Failure(TypeError)
          else if HasKey(closest, "available") && HasKey(closest, "url") then
            Success((Get(closest, "available"), Get(closest, "url")))
          else Success(NotAvailable))
  {
  }

  /** A typical availability answer. */
  lemma AvailabilityExample(url: string)
    ensures IsWaybackArchiveAvailable(VDict([Field("archived_snapshots", VDict([Field("closest", VDict([
              Field("status", VStr("200")), Field("available", VBool(true)), Field("url", VStr(url))]))]))]))
         == Success((VBool(true), VStr(url)))
    ensures IsWaybackArchiveAvailable(VDict([Field("archived_snapshots", VDict([]))])) == Success(NotAvailable)
  {
    var closest := [Field("status", VStr("200")), Field("available", VBool(true)), Field("url", VStr(url))];
    assert Keys(closest) == ["status", "available", "url"];
    assert Subscript(VDict(closest), "available") == Success(VBool(true));
    assert Subscript(VDict(closest), "url") == Success(VStr(url));
    assert Keys([Field("closest", VDict(closest))]) == ["closest"];
    assert Keys([Field("archived_snapshots", VDict([Field("closest", VDict(closest))]))]) == ["archived_snapshots"];
  }

  /* ---------------------------------------------------------------------- */
  /* extract_urls_from_sme_menu_content                                      */
  /* ---------------------------------------------------------------------- */

  /** `news.contents[1].attrs['href']`: the second child of a teaser must be
      an element with an `href`. */
  function NewsHref(div: Node): (r: Result<string, Exc>)
    ensures r.Success? <==>
      div.Element? && |div.children| >= 2 && div.children[1].Element? && "href" in div.children[1].attrs
    ensures r.Success? ==> r.value == div.children[1].attrs["href"]
    ensures r.Failure? && div.Element? && |div.children| < 2 ==> r.error == IndexError
    ensures r.Failure? && div.Element? && |div.children| >= 2 && div.children[1].Element? ==> r.error == KeyError
    ensures r.Failure? && !(div.Element? && |div.children| >= 2 && div.children[1].Element?) ==>
      r.error == IndexError || r.error == AttributeError
  {
    if !div.Element? then Failure(AttributeError)
    else if |div.children| < 2 then Failure(IndexError)
    else if !div.children[1].Element? then Failure(AttributeError)
    else if "href" !in div.children[1].attrs then Failure(KeyError)
    else Success(div.children[1].attrs["href"])
  }

  /** What one availability request gave: an ok response (`requests`
      calls a status below 400 ok) and its decoded JSON body, a response
      that is not ok, or a `RequestException`. `LookupFault` also stands for
      an ok response whose body does not decode: from `requests` 2.27 on,
      the error `.json()` raises is a `RequestException` too, caught by the
      same clause. */
  datatype LookupOutcome = LookupOk(payload: Value) | LookupNotOk | LookupFault

  /** A teaser `div` of the listing and the outcome of the lookup for its
      link. */
  datatype Candidate = Candidate(div: Node, outcome: LookupOutcome)

  /** The URLs collected and the number of lookups made. */
  datatype Discovery = Discovery(urls: seq<Value>, lookups: nat)

  /** One pass of the loop body over teaser `c`, given the outcome `rest`
      of the passes after it. The link is read before the `try`, so a
      teaser without one ends the function with its exception; a lookup
      that fails in transport is logged and skipped; a response that is not
      ok ends the loop, and `rest` is never reached. */
  function Step(c: Candidate, rest: Result<Discovery, Exc>): (r: Result<Discovery, Exc>)
    ensures r.Success? && c.outcome != LookupNotOk ==>
      rest.Success? && r.value.lookups == rest.value.lookups + 1 && |r.value.urls| <= |rest.value.urls| + 1
    ensures r.Success? && c.outcome == LookupNotOk ==> r.value == Discovery([], 1)
    ensures r.Failure? ==> r.error in {IndexError, AttributeError, KeyError, TypeError} || r == rest
  {
    var _ :- NewsHref(c.div);
    match c.outcome
    case LookupNotOk => Success(Discovery([], 1))
    case LookupFault =>
      var d :- rest;
      Success(Discovery(d.urls, d.lookups + 1))
    case LookupOk(payload) =>
      var pair :- IsWaybackArchiveAvailable(payload);
      var d :- rest;
      Success(Discovery((if Truthy(pair.0) then [pair.1] else []) + d.urls, d.lookups + 1))
  }

  /** The loop over the teasers, one `Step` per teaser. */
  function Discover(cands: seq<Candidate>): (r: Result<Discovery, Exc>)
    ensures r.Success? ==> r.value.lookups <= |cands| && |r.value.urls| <= r.value.lookups
    ensures r.Failure? ==> r.error in {IndexError, AttributeError, KeyError, TypeError}
  {
    if |cands| == 0 then Success(Discovery([], 0))
    else Step(cands[0], Discover(cands[1..]))
  }

  /** The URL one lookup contributes: the snapshot URL when the answer says
      available (a truthy `available`), nothing otherwise. */
  function Reported(c: Candidate): (urls: seq<Value>)
    ensures |urls| <= 1
  {
    match c.outcome
    case LookupOk(payload) =>
      (match IsWaybackArchiveAvailable(payload)
       case Success((available, url)) => if Truthy(available) then [url] else []
       case Failure(_) => [])
    case _ => []
  }

  /** The URLs the first `n` lookups contribute, in order. */
  function ReportedUpTo(cands: seq<Candidate>, n: nat): seq<Value>
    requires n <= |cands|
  {
    if n == 0 then [] else Reported(cands[0]) + ReportedUpTo(cands[1..], n - 1)
  }

  /** When the loop ends normally it has made one lookup per teaser up to
      and including the first response that was not ok (or all of them),
      and returns exactly the snapshot URLs those lookups reported
      available, in teaser order. */
  predicate LoopSummary(cands: seq<Candidate>, d: Discovery) {
    && d.lookups <= |cands|
    && (forall k :: 0 <= k < d.lookups - 1 ==> cands[k].outcome != LookupNotOk)
    && (d.lookups == |cands| || (d.lookups > 0 && cands[d.lookups - 1].outcome == LookupNotOk))
    && d.urls == ReportedUpTo(cands, d.lookups)
  }

  lemma {:induction false} UrlsAreReportedInOrder(cands: seq<Candidate>)
    requires Discover(cands).Success?
    ensures LoopSummary(cands, Discover(cands).value)
  {
    if |cands| == 0 {
      assert ReportedUpTo(cands, 0) == [];
    } else if cands[0].outcome == LookupNotOk {
      assert ReportedUpTo(cands[1..], 0) == [];
    } else {
      UrlsAreReportedInOrder(cands[1..]);
      ContinuedLoop(cands);
    }
  }

  /** One step of the loop past a teaser whose lookup did not stop it. */
  lemma ContinuedLoop(cands: seq<Candidate>)
    requires |cands| > 0 && cands[0].outcome != LookupNotOk
    requires Discover(cands).Success?
    requires Discover(cands[1..]).Success? && LoopSummary(cands[1..], Discover(cands[1..]).value)
    ensures LoopSummary(cands, Discover(cands).value)
  {
    var d := Discover(cands[1..]).value;
    var e := Discover(cands).value;
    assert e.lookups == d.lookups + 1;
    assert e.urls == Reported(cands[0]) + d.urls;
    forall k | 1 <= k < d.lookups
      ensures cands[k].outcome != LookupNotOk
    {
      assert cands[k] == cands[1..][k - 1];
    }
  }

  /** A response that is not ok stops the loop: the teasers after it are
      never looked up, whatever they hold. */
  lemma {:induction false} NotOkStopsTheLoop(before: seq<Candidate>, c: Candidate, after: seq<Candidate>, after': seq<Candidate>)
    requires c.outcome == LookupNotOk
    ensures Discover(before + [c] + after) == Discover(before + [c] + after')
  {
    var s, s' := before + [c] + after, before + [c] + after';
    if |before| == 0 {
      assert s[0] == c && s'[0] == c;
    } else {
      assert s[0] == before[0] && s'[0] == before[0];
      assert s[1..] == before[1..] + [c] + after;
      assert s'[1..] == before[1..] + [c] + after';
      NotOkStopsTheLoop(before[1..], c, after, after');
    }
  }

  /** A lookup that fails in transport costs a lookup and contributes
      nothing: the loop carries on with the next teaser. */
  lemma {:induction false} FaultIsSkipped(before: seq<Candidate>, c: Candidate, after: seq<Candidate>)
    requires c.outcome == LookupFault && NewsHref(c.div).Success?
    requires forall k :: 0 <= k < |before| ==> before[k].outcome != LookupNotOk
    ensures Discover(before + [c] + after).Success? <==> Discover(before + after).Success?
    ensures Discover(before + after).Success? ==>
      Discover(before + [c] + after).value
        == Discovery(Discover(before + after).value.urls, Discover(before + after).value.lookups + 1)
  {
    if |before| == 0 {
      assert before + [c] + after == [c] + after;
      assert ([c] + after)[1..] == after;
      assert before + after == after;
    } else {
      assert (before + [c] + after)[0] == before[0];
      assert (before + after)[0] == before[0];
      assert (before + [c] + after)[1..] == before[1..] + [c] + after;
      assert (before + after)[1..] == before[1..] + after;
      FaultIsSkipped(before[1..], c, after);
    }
  }

  /** The outcome of the whole loop, given the URLs collected and the
      lookups made before the remaining teasers and the outcome for those. */
  function After(urls: seq<Value>, lookups: nat, rest: Result<Discovery, Exc>): Result<Discovery, Exc> {
    match rest
    case Failure(e) => Failure(e)
    case Success(d) => Success(Discovery(urls + d.urls, lookups + d.lookups))
  }

  /** Two stretches of the loop, one after the other. */
  lemma AfterAfter(urls: seq<Value>, lookups: nat, more: seq<Value>, rest: Result<Discovery, Exc>)
    ensures After(urls, lookups, After(more, 1, rest)) == After(urls + more, lookups + 1, rest)
  {
    if rest.Success? {
      assert urls + (more + rest.value.urls) == (urls + more) + rest.value.urls;
    }
  }

  /** A teaser whose lookup failed in transport: one lookup, no URL. */
  lemma FaultStep(c: Candidate, rest: Result<Discovery, Exc>)
    requires c.outcome == LookupFault && NewsHref(c.div).Success?
    ensures Step(c, rest) == After([], 1, rest)
  {
    if rest.Success? {
      assert [] + rest.value.urls == rest.value.urls;
    }
  }

  /** A teaser whose lookup answered: one lookup, and its snapshot URL when
      the answer says available. */
  lemma OkStep(c: Candidate, pair: (Value, Value), rest: Result<Discovery, Exc>)
    requires c.outcome.LookupOk? && NewsHref(c.div).Success?
    requires IsWaybackArchiveAvailable(c.outcome.payload) == Success(pair)
    ensures Step(c, rest) == After(if Truthy(pair.0) then [pair.1] else [], 1, rest)
  {
  }

  /** The loop as written, with the running list of collected URLs. */
  method ExtractUrls(cands: seq<Candidate>) returns (r: Result<Discovery, Exc>)
    ensures r == Discover(cands)
  {
    var urls: seq<Value> := [];
    var i := 0;
    assert cands[0..] == cands;
    assert After([], 0, Discover(cands)) == Discover(cands) by {
      if Discover(cands).Success? {
        assert [] + Discover(cands).value.urls == Discover(cands).value.urls;
      }
    }
    while i < |cands|
      invariant 0 <= i <= |cands|
      invariant Discover(cands) == After(urls, i, Discover(cands[i..]))
    {
      var c := cands[i];
      assert cands[i..][0] == c && cands[i..][1..] == cands[i + 1..];
      assert Discover(cands[i..]) == Step(c, Discover(cands[i + 1..]));
      var href := NewsHref(c.div);
      if href.Failure? {
        return Failure(href.error);
      }
      match c.outcome {
        case LookupNotOk =>
          assert urls + [] == urls;
          return Success(Discovery(urls, i + 1));
        case LookupFault =>
          FaultStep(c, Discover(cands[i + 1..]));
          AfterAfter(urls, i, [], Discover(cands[i + 1..]));
          assert urls + [] == urls;
        case LookupOk(payload) =>
          var pair := IsWaybackArchiveAvailable(payload);
          if pair.Failure? {
            return Failure(pair.error);
          }
          var more := if Truthy(pair.value.0) then [pair.value.1] else [];
          OkStep(c, pair.value, Discover(cands[i + 1..]));
          AfterAfter(urls, i, more, Discover(cands[i + 1..]));
          urls := urls + more;
      }
      i := i + 1;
    }
    assert cands[i..] == [];
    assert urls + [] == urls;
    return Success(Discovery(urls, |cands|));
  }

  /* ---------------------------------------------------------------------- */
  /* download_urls                                                           */
  /* ---------------------------------------------------------------------- */

  /** What the request for a listing page gave: its parsed page (the status
      is never checked), or a `RequestException`. */
  datatype Listing = ListingPage(page: seq<Node>) | ListingFault

  /** The teasers of a listing page: `findAll("div", {"class": "media
      media-two-cols cf"})`, each with the outcome of lookup number `ix`. */
  function Candidates(page: seq<Node>, classTest: ClassTest, lookup: nat -> LookupOutcome): (cands: seq<Candidate>)
    ensures |cands| == |FindAll(page, "div", HasClass(classTest, "media media-two-cols cf"))|
  {
    var divs := FindAll(page, "div", HasClass(classTest, "media media-two-cols cf"));
    seq(|divs|, ix requires 0 <= ix < |divs| => Candidate(divs[ix], lookup(ix)))
  }

  /** The leading strings of a list of objects. */
  function StringPrefix(vs: seq<Value>): (strs: seq<string>)
    ensures |strs| <= |vs|
    ensures forall k :: 0 <= k < |strs| ==> vs[k] == VStr(strs[k])
    ensures |strs| < |vs| ==> !vs[|strs|].VStr?
  {
    if |vs| == 0 || !vs[0].VStr? then [] else [vs[0].s] + StringPrefix(vs[1..])
  }

  /** The file system after a page, and the exception that escaped the
      worker, if any. */
  datatype PageOutcome = PageOutcome(fs: FileSystem, escaped: Option<Exc>)

  /** `write_files(urls, ...)` in mode `'a'`: `content + '\n'` raises
      `TypeError` at the first URL that is not a string, after the ones
      before it have been written. */
  function WriteUrls(fs: FileSystem, urls: seq<Value>, sink: Path): (out: PageOutcome)
    ensures out.escaped.None? <==> forall k :: 0 <= k < |urls| ==> urls[k].VStr?
    ensures out.escaped.Some? ==> out.escaped.value == TypeError
    ensures out.fs == WriteFiles(fs, StringPrefix(urls), sink, Append)
  {
    var strs := StringPrefix(urls);
    PageOutcome(WriteFiles(fs, strs, sink, Append), if |strs| == |urls| then None else Some(TypeError))
  }

  /** `download_urls(page_number)`, the sleeps left out. */
  function DownloadPage(fs: FileSystem, listing: Listing, classTest: ClassTest, lookup: nat -> LookupOutcome, sink: Path): (out: PageOutcome)
    ensures listing.ListingFault? ==> out == PageOutcome(fs, None)
    ensures forall q :: q != sink ==> Content(out.fs, q) == Content(fs, q)
    ensures out.escaped.Some? ==> out.escaped.value in {IndexError, AttributeError, KeyError, TypeError}
  {
    match listing
    case ListingFault => PageOutcome(fs, None)
    case ListingPage(page) =>
      match Discover(Candidates(page, classTest, lookup))
      case Failure(e) => PageOutcome(fs, Some(e))
      case Success(d) => WriteUrls(fs, d.urls, sink)
  }

  /** A page whose teasers all have links and whose collected URLs are
      strings without `'\n'` or `'\r'` adds those URLs to the URL file, one
      per line, after the lines already there; nothing escapes. */
  lemma DownloadAppendsUrlLines(fs: FileSystem, page: seq<Node>, classTest: ClassTest, lookup: nat -> LookupOutcome, sink: Path, urls: seq<string>)
    requires EndsLine(Content(fs, sink))
    requires Discover(Candidates(page, classTest, lookup)).Success?
    requires Discover(Candidates(page, classTest, lookup)).value.urls == seq(|urls|, k requires 0 <= k < |urls| => VStr(urls[k]))
    requires forall k :: 0 <= k < |urls| ==> '\n' !in urls[k] && '\r' !in urls[k]
    ensures var out := DownloadPage(fs, ListingPage(page), classTest, lookup, sink);
      && out.escaped.None?
      && FileLines(Content(out.fs, sink)) == FileLines(Content(fs, sink)) + Terminated(urls)
  {
    var vs := seq(|urls|, k requires 0 <= k < |urls| => VStr(urls[k]));
    assert StringPrefix(vs) == urls;
    WriteFilesThenRead(fs, urls, sink);
  }

  /** The worker pool finishes pages in any order; two pages that both
      succeed leave the same URL lines, in some order, whichever finishes
      first. */
  lemma PagesCommute(fs: FileSystem, a: Listing, b: Listing, classTest: ClassTest, lookupA: nat -> LookupOutcome, lookupB: nat -> LookupOutcome, sink: Path)
    requires EndsLine(Content(fs, sink))
    requires DownloadPage(fs, a, classTest, lookupA, sink).escaped.None?
    requires DownloadPage(fs, b, classTest, lookupB, sink).escaped.None?
    ensures var ab := DownloadPage(DownloadPage(fs, a, classTest, lookupA, sink).fs, b, classTest, lookupB, sink);
      var ba := DownloadPage(DownloadPage(fs, b, classTest, lookupB, sink).fs, a, classTest, lookupA, sink);
      multiset(FileLines(Content(ab.fs, sink))) == multiset(FileLines(Content(ba.fs, sink)))
  {
    var fa := DownloadPage(fs, a, classTest, lookupA, sink).fs;
    var fb := DownloadPage(fs, b, classTest, lookupB, sink).fs;
    if a.ListingFault? || b.ListingFault? {
    } else {
      var xs := StringPrefix(Discover(Candidates(a.page, classTest, lookupA)).value.urls);
      var ys := StringPrefix(Discover(Candidates(b.page, classTest, lookupB)).value.urls);
      assert fa == WriteFiles(fs, xs, sink, Append);
      assert fb == WriteFiles(fs, ys, sink, Append);
      WriteFilesCommute(fs, xs, ys, sink);
    }
  }
}
