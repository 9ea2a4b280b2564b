/** The listing extractor `scrapeCurrentPage` and the page-by-page traversal of `scrape` in
    worker/worker.js. The browser is abstracted into what it shows: one `PageView` per number of
    successful page changes, each with its listing containers and its pager. */
module Scraper {
  import opened Wrappers
  import opened Csv
  import opened Pager

  /** One listing container: the texts of its name, phone and address elements, each None when
      finding the element or reading its text threw. */
  datatype Listing = Listing(name: Option<string>, phone: Option<string>, address: Option<string>)

  /** What the browser shows for one page: its listing containers in document order (None
      when finding them threw) and its pager. */
  datatype PageView = PageView(listings: Option<seq<Listing>>, pager: Pager)

  /** The record `{ name, phone, address }` that a listing becomes. */
  function Contact(name: string, phone: string, address: string): Record {
    [Field("name", Some(name)), Field("phone", Some(phone)), Field("address", Some(address))]
  }

  /** All three reads of the listing succeeded. */
  predicate Complete(l: Listing) {
    l.name.Some? && l.phone.Some? && l.address.Some?
  }

  /** The records one listing contributes: its contact when it is complete, none otherwise. */
  function Emitted(l: Listing): seq<Record> {
    if Complete(l) then [Contact(l.name.value, l.phone.value, l.address.value)] else []
  }

  /** The records a page yields, in listing order. */
  function Extracted(listings: seq<Listing>): seq<Record> {
    if listings == [] then []
    else Extracted(listings[..|listings| - 1]) + Emitted(listings[|listings| - 1])
  }

  /** The records a page view yields; none when finding its listing containers threw, and none
      when the lookup found no containers. */
  function PageRecords(v: PageView): seq<Record> {
    FoundRecords(v.listings)
  }

  /** The records of the listing containers found on a page; none when finding them threw. */
  function FoundRecords(found: Option<seq<Listing>>): seq<Record> {
    match found
    case None => []
    case Some(listings) => Extracted(listings)
  }

  /** On page `p`, looking up the listing containers does not throw (it may find none). */
  predicate Listed(views: seq<PageView>, p: nat)
    requires 1 <= p <= |views|
  {
    views[p - 1].listings.Some?
  }

  /** On page `p`, clicking the label of page `p + 1` succeeds. */
  predicate MovesOn(views: seq<PageView>, p: nat)
    requires 1 <= p <= |views|
  {
    Navigates(views[p - 1].pager, NatToString(p + 1))
  }

  /** The records held after the first `k` pages have been scraped, in page order. */
  function Collected(views: seq<PageView>, k: nat): seq<Record>
    requires k <= |views|
  {
    if k == 0 then [] else Collected(views, k - 1) + PageRecords(views[k - 1])
  }

  /** The `results` array of `scrape`, which `scrapeCurrentPage` appends to in place. */
  class ResultSet {
    var records: seq<Record>

    constructor ()
      ensures records == []
    {
      records := [];
    }

    /** `scrapeCurrentPage(driver, results)`: appends, in listing order, the record of every
        listing whose three reads succeed; a listing with a failed read is skipped, and a page
        where the lookup finds no containers appends nothing and does not throw. When finding
        the listing containers throws, it throws (`threw`) and appends nothing. */
    method ScrapeCurrentPage(found: Option<seq<Listing>>) returns (threw: bool)
      modifies this
      ensures threw <==> found.None?
      ensures records == old(records) + FoundRecords(found)
    {
      if found.None? {
        return true;
      }
      threw := false;
      var listings := found.value;
      for i := 0 to |listings|
        invariant records == old(records) + Extracted(listings[..i])
      {
        assert listings[..i + 1][..i] == listings[..i];
        var listing := listings[i];
        if listing.name.Some? && listing.phone.Some? && listing.address.Some? {
          records := records + [Contact(listing.name.value, listing.phone.value, listing.address.value)];
        }
      }
      assert listings[..|listings|] == listings;
    }
  }

  // ---------------------------------------------------------------------------------------
  // The traversal

  /** How a run of the traversal ends: the records collected, the number of the last page
      scraped, the pages it tried to move to, and whether an exception ended it. */
  datatype Outcome = Outcome(results: seq<Record>, scraped: nat, targets: seq<nat>, threw: bool)

  /** The traversal from page `page` of `total` on, having reached `acc` so far: scrape the
      page; stop if that threw or the page is the last; otherwise try the label of the next
      page and go on only if its click succeeds. */
  function RunFrom(views: seq<PageView>, total: nat, page: nat, acc: Outcome): Outcome
    requires 1 <= page && total <= |views|
    decreases total + 1 - page
  {
    if page > total then acc
    else
      var scraped := acc.(results := acc.results + PageRecords(views[page - 1]), scraped := page);
      if !Listed(views, page) then scraped.(threw := true)
      else if page == total then scraped
      else
        var tried := scraped.(targets := scraped.targets + [page + 1]);
        if MovesOn(views, page) then RunFrom(views, total, page + 1, tried) else tried
  }

  /** The whole traversal: the page count is read from the first page's pager and the run
      starts on page 1 with nothing collected. */
  function Run(views: seq<PageView>): Outcome
    requires |views| > 0
    requires TotalPages(views[0].pager) <= |views|
  {
    RunFrom(views, TotalPages(views[0].pager), 1, Outcome([], 0, [], false))
  }

  /** From a state reached by leaving pages `1 .. page - 1` normally, the traversal ends on a
      page between `page` and `total`, every page before it was left normally, and it ended
      by an exception exactly when finding the listing containers of its last page threw;
      otherwise it ended on page `total` or because the click to the next page failed. */
  lemma {:induction false} RunFromStops(views: seq<PageView>, total: nat, page: nat, acc: Outcome)
    requires 1 <= page <= total <= |views|
    requires !acc.threw
    requires forall p :: 1 <= p < page ==> Listed(views, p) && MovesOn(views, p)
    ensures var r := RunFrom(views, total, page, acc);
      && page <= r.scraped <= total
      && (forall p :: 1 <= p < r.scraped ==> Listed(views, p) && MovesOn(views, p))
      && (r.threw <==> !Listed(views, r.scraped))
      && (!r.threw && r.scraped < total ==> !MovesOn(views, r.scraped))
    decreases total - page
  {
    if Listed(views, page) && page < total && MovesOn(views, page) {
      var scraped := acc.(results := acc.results + PageRecords(views[page - 1]), scraped := page);
      RunFromStops(views, total, page + 1, scraped.(targets := scraped.targets + [page + 1]));
    }
  }

  /** From a state that has tried to move to pages 2 .. page, the traversal tries to move to
      pages 2, 3, ... in turn: one target for every page it left normally, and one more when it
      ended on a failed click rather than on the last page or an exception. */
  lemma {:induction false} RunFromTargets(views: seq<PageView>, total: nat, page: nat, acc: Outcome)
    requires 1 <= page <= total <= |views|
    requires !acc.threw
    requires |acc.targets| == page - 1 && forall i :: 0 <= i < |acc.targets| ==> acc.targets[i] == i + 2
    ensures var r := RunFrom(views, total, page, acc);
      && |r.targets| == (if !r.threw && r.scraped < total then r.scraped else r.scraped - 1)
      && (forall i :: 0 <= i < |r.targets| ==> r.targets[i] == i + 2)
    decreases total - page
  {
    if Listed(views, page) && page < total {
      var scraped := acc.(results := acc.results + PageRecords(views[page - 1]), scraped := page);
      var tried := scraped.(targets := scraped.targets + [page + 1]);
      if MovesOn(views, page) {
        RunFromTargets(views, total, page + 1, tried);
      } else {
        assert RunFrom(views, total, page, acc) == tried;
      }
    }
  }

  /** From a state holding the records of pages `1 .. page - 1`, the traversal holds the
      records of every page it scraped, in page order. */
  lemma {:induction false} RunFromResults(views: seq<PageView>, total: nat, page: nat, acc: Outcome)
    requires 1 <= page <= total <= |views|
    requires acc.results == Collected(views, page - 1)
    ensures var r := RunFrom(views, total, page, acc);
      r.scraped <= total && r.results == Collected(views, r.scraped)
    decreases total - page
  {
    if Listed(views, page) && page < total && MovesOn(views, page) {
      var scraped := acc.(results := acc.results + PageRecords(views[page - 1]), scraped := page);
      RunFromResults(views, total, page + 1, scraped.(targets := scraped.targets + [page + 1]));
    }
  }

  /** The traversal scrapes between 1 and the page count many pages; it leaves every page but
      the last normally; it ends by an exception exactly when finding the last page's listing
      containers throws, and otherwise on the last page or because the click to the next page failed;
      it tries to move to pages 2, 3, ... in turn, so with a single page it never tries; and
      it holds the records of the scraped pages in page order. */
  lemma RunEnds(views: seq<PageView>)
    requires |views| > 0
    requires TotalPages(views[0].pager) <= |views|
    ensures var r := Run(views);
      var total := TotalPages(views[0].pager);
      && 1 <= r.scraped <= total
      && (forall p :: 1 <= p < r.scraped ==> Listed(views, p) && MovesOn(views, p))
      && (r.threw <==> !Listed(views, r.scraped))
      && (!r.threw && r.scraped < total ==> !MovesOn(views, r.scraped))
      && |r.targets| == (if !r.threw && r.scraped < total then r.scraped else r.scraped - 1)
      && (forall i :: 0 <= i < |r.targets| ==> r.targets[i] == i + 2)
      && r.results == Collected(views, r.scraped)
      && (total == 1 ==> r.targets == [])
  {
    var total, start := TotalPages(views[0].pager), Outcome([], 0, [], false);
    TotalPagesIsMaximum(views[0].pager);
    RunFromStops(views, total, 1, start);
    RunFromTargets(views, total, 1, start);
    RunFromResults(views, total, 1, start);
  }

  /** Conversely, the run stops exactly on the first page where finding the listing containers
      throws, whose click to the next page fails, or which is the last. */
  lemma RunStopsAt(views: seq<PageView>, p: nat)
    requires |views| > 0
    requires TotalPages(views[0].pager) <= |views|
    requires 1 <= p <= TotalPages(views[0].pager)
    requires forall q :: 1 <= q < p ==> Listed(views, q) && MovesOn(views, q)
    requires !Listed(views, p) || p == TotalPages(views[0].pager) || !MovesOn(views, p)
    ensures Run(views).scraped == p
  {
    RunEnds(views);
  }

  /** `scrape`, from the initial page load to the CSV text. `views[p - 1]` is what the browser
      shows while the traversal is on page `p`. It reads the page count from the first page's
      pager, scrapes page 1, and before each further page clicks the label `String(p + 1)`;
      it stops after the last page or as soon as that click does not happen. When finding the
      listing containers of a page throws, the exception ends the run and no CSV is written
      (`csv` is None); a page where the lookup finds no containers adds no records and the run
      goes on. `scraped` is the number of the last page scraped, `targets` the pages it
      tried to move to, `results` the records in page order and `csv` their CSV text. */
  method Scrape(views: seq<PageView>) returns (results: seq<Record>, scraped: nat, targets: seq<nat>, csv: Option<string>)
    requires |views| > 0
    requires TotalPages(views[0].pager) <= |views|
    ensures Outcome(results, scraped, targets, csv.None?) == Run(views)
    ensures csv.Some? ==> csv.value == ConvertToCsv(results)
  {
    var store := new ResultSet();
    var totalPages := GetTotalPages(views[0].pager);
    scraped, targets := 0, [];
    var failed := false;
    var page := 1;
    while page <= totalPages
      invariant 1 <= page <= totalPages + 1
      invariant !failed
      invariant RunFrom(views, totalPages, page, Outcome(store.records, scraped, targets, false)) == Run(views)
      decreases totalPages + 1 - page
    {
      failed := store.ScrapeCurrentPage(views[page - 1].listings);
      scraped := page;
      if failed {
        break;
      }
      if page < totalPages {
        var targetPageText := NatToString(page + 1);
        targets := targets + [page + 1];
        var clicked, attempts := GoToPage(views[page - 1].pager, targetPageText);
        if !clicked {
          break;
        }
      }
      page := page + 1;
    }
    results := store.records;
    if failed {
      csv := None;
    } else {
      csv := Some(ConvertToCsv(results));
    }
  }

  // ---------------------------------------------------------------------------------------
  // Properties of the extraction

  /** Extraction distributes over the concatenation of listing sequences. */
  lemma {:induction false} ExtractedAppend(a: seq<Listing>, b: seq<Listing>)
    ensures Extracted(a + b) == Extracted(a) + Extracted(b)
  {
    if b != [] {
      var init := b[..|b| - 1];
      ExtractedAppend(a, init);
      assert (a + b)[..|a + b| - 1] == a + init;
      assert b[..|b| - 1] == init;
    } else {
      assert a + b == a;
    }
  }

  /** A listing with a failed read contributes nothing: removing it changes no record. */
  lemma SkippedListing(a: seq<Listing>, l: Listing, b: seq<Listing>)
    requires !Complete(l)
    ensures Extracted(a + [l] + b) == Extracted(a + b)
  {
    assert (a + [l])[..|a|] == a;
    assert Extracted(a + [l]) == Extracted(a);
    ExtractedAppend(a + [l], b);
    ExtractedAppend(a, b);
  }

  /** A page yields at most one record per listing container, and exactly one per container
      if and only if every listing is complete. */
  lemma {:induction false} ExtractedCount(listings: seq<Listing>)
    ensures |Extracted(listings)| <= |listings|
    ensures |Extracted(listings)| == |listings| <==> forall i :: 0 <= i < |listings| ==> Complete(listings[i])
  {
    if listings != [] {
      var init := listings[..|listings| - 1];
      ExtractedCount(init);
      assert forall i :: 0 <= i < |init| ==> init[i] == listings[i];
    }
  }

  /** A record is extracted from a page if and only if it is the contact of some complete
      listing on it. */
  lemma {:induction false} ExtractedMembers(listings: seq<Listing>, r: Record)
    ensures r in Extracted(listings) <==>
      exists i :: 0 <= i < |listings| && Complete(listings[i]) && Emitted(listings[i]) == [r]
  {
    if listings != [] {
      var n := |listings| - 1;
      var init := listings[..n];
      ExtractedMembers(init, r);
      assert forall i :: 0 <= i < |init| ==> init[i] == listings[i];
      if r in Extracted(listings) && r !in Extracted(init) {
        assert Complete(listings[n]) && Emitted(listings[n]) == [r];
      }
    }
  }

  /** The field names of the records the scraper builds. */
  predicate IsContact(r: Record) {
    Keys(r) == ["name", "phone", "address"]
  }

  lemma {:induction false} ExtractedContacts(listings: seq<Listing>)
    ensures forall i :: 0 <= i < |Extracted(listings)| ==> IsContact(Extracted(listings)[i])
  {
    if listings != [] {
      ExtractedContacts(listings[..|listings| - 1]);
    }
  }

  lemma {:induction false} CollectedContacts(views: seq<PageView>, k: nat)
    requires k <= |views|
    ensures forall i :: 0 <= i < |Collected(views, k)| ==> IsContact(Collected(views, k)[i])
  {
    if k > 0 {
      CollectedContacts(views, k - 1);
      if views[k - 1].listings.Some? {
        ExtractedContacts(views[k - 1].listings.value);
      }
    }
  }

  /** The records of the first `k` pages are those of the first `j` pages followed by the rest:
      the result set only grows at its end as pages are scraped. */
  lemma {:induction false} CollectedPrefix(views: seq<PageView>, j: nat, k: nat)
    requires j <= k <= |views|
    ensures Collected(views, j) <= Collected(views, k)
  {
    if j < k {
      CollectedPrefix(views, j, k - 1);
    }
  }

  /** The CSV text of any scrape reads back with the header `name,phone,address` (when there
      is a record) and one row per record holding its name, phone and address. */
  lemma ScrapedCsvRoundTrip(views: seq<PageView>, k: nat)
    requires k <= |views|
    ensures ReadCsv(ConvertToCsv(Collected(views, k))) == Some(Table(
      if Collected(views, k) == [] then [] else ["name", "phone", "address"],
      RowTexts(Collected(views, k))))
  {
    var recs := Collected(views, k);
    CollectedContacts(views, k);
    ContactsReadable(recs);
    ConvertToCsvRoundTrip(recs);
    if recs != [] {
      assert IsContact(recs[0]);
    }
  }

  lemma ContactsReadable(recs: seq<Record>)
    requires forall i :: 0 <= i < |recs| ==> IsContact(recs[i])
    ensures Readable(recs)
  {
    forall i | 0 <= i < |recs|
      ensures |recs[i]| > 0
    {
      assert |Keys(recs[i])| == 3;
    }
    if recs != [] {
      var r := recs[0];
      assert IsContact(r);
      var ks := Keys(r);
      assert |r| == |ks| == 3;
      assert ks[0] == r[0].key && ks[1] == r[1].key && ks[2] == r[2].key;
      forall j | 0 <= j < |r|
        ensures ',' !in r[j].key && '\n' !in r[j].key
      {
        assert r[j].key in ["name", "phone", "address"];
      }
    }
  }
}
