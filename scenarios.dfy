/** Calls of `Scrape` on concrete pages, showing that the contracts of `Scrape` and the lemmas
    about `Run` determine how many pages are scraped, which records are kept and how many lines
    the CSV text has. */
module Scenarios {
  import opened Wrappers
  import opened Csv
  import opened Pager
  import opened Scraper

  /** The pager labels 1, 2, 3, with the text of the second one unreadable when `readable2`
      is false; every anchor clicks. */
  function ThreeLabels(readable2: bool): seq<Label> {
    [Label(Some("1"), true), Label(if readable2 then Some("2") else None, true), Label(Some("3"), true)]
  }

  lemma ThreePages(readable2: bool)
    ensures TotalPages(Some(ThreeLabels(readable2))) == 3
  {
    var ls := ThreeLabels(readable2);
    assert Trim("1") == "1" && Trim("2") == "2" && Trim("3") == "3";
    assert DecimalValue("1") == 1 && DecimalValue("2") == 2 && DecimalValue("3") == 3;
    assert ls[..2][..1][..0] == [];
    assert MaxLabel(ls[..2][..1]) == 1;
    assert MaxLabel(ls[..2]) == if readable2 then 2 else 1;
  }

  lemma ExtractedPair(x: Listing, y: Listing)
    ensures Extracted([x, y]) == Emitted(x) + Emitted(y)
  {
    assert [x, y][..1] == [x];
    ExtractedSingle(x);
  }

  lemma ExtractedSingle(x: Listing)
    ensures Extracted([x]) == Emitted(x)
  {
    assert [x][..0] == [];
  }

  /** Labels 1 to 3 on every page; page 1 has two complete listings and one whose phone cannot
      be read, pages 2 and 3 one complete listing each: every page is scraped, four records
      are kept and the CSV text has five lines, the header and one per record. */
  method AllPagesReached() {
    var ls := ThreeLabels(true);
    var a := Listing(Some("A"), Some("1"), Some("X"));
    var b := Listing(Some("B"), Some("2"), Some("Y"));
    var broken := Listing(Some("C"), None, Some("Z"));
    var views := [PageView(Some([a, broken, b]), Some(ls)), PageView(Some([a]), Some(ls)), PageView(Some([b]), Some(ls))];
    ThreePages(true);
    ReachesNext(views, ls, 1);
    ReachesNext(views, ls, 2);
    var results, scraped, targets, csv := Scrape(views);
    RunEnds(views);
    assert scraped == 3;
    assert targets == [2, 3];
    ThreeViewsCollected(views, a, b, broken);
    FourContactsLines(results);
    assert |SplitOn('\n', csv.value)| == 5;
  }

  /** The CSV text of the four records of that run has five lines. */
  lemma FourContactsLines(recs: seq<Record>)
    requires recs == [Contact("A", "1", "X"), Contact("B", "2", "Y"), Contact("A", "1", "X"), Contact("B", "2", "Y")]
    ensures |SplitOn('\n', ConvertToCsv(recs))| == 5
  {
    forall i, j | 0 <= i < |recs| && 0 <= j < |recs[i]|
      ensures '\n' !in recs[i][j].value.GetOr("")
    {
      assert recs[i][j].value.GetOr("") in ["A", "1", "X", "B", "2", "Y"];
    }
    forall j | 0 <= j < |recs[0]|
      ensures '\n' !in recs[0][j].key
    {
      assert recs[0][j].key in ["name", "phone", "address"];
    }
    ConvertToCsvLines(recs);
  }

  lemma ReachesNext(views: seq<PageView>, ls: seq<Label>, p: nat)
    requires 1 <= p <= 2 && |views| == 3 && views[p - 1].pager == Some(ls) && ls == ThreeLabels(true)
    ensures MovesOn(views, p)
  {
    assert NatToString(p + 1) == ls[p].text.value;
    assert Trim("2") == "2" && Trim("3") == "3";
    assert Clicks(ls[p], NatToString(p + 1));
  }

  lemma ThreeViewsCollected(views: seq<PageView>, a: Listing, b: Listing, broken: Listing)
    requires a == Listing(Some("A"), Some("1"), Some("X"))
    requires b == Listing(Some("B"), Some("2"), Some("Y"))
    requires broken == Listing(Some("C"), None, Some("Z"))
    requires views == [PageView(Some([a, broken, b]), Some(ThreeLabels(true))), PageView(Some([a]), Some(ThreeLabels(true))), PageView(Some([b]), Some(ThreeLabels(true)))]
    ensures Collected(views, 3) == [Contact("A", "1", "X"), Contact("B", "2", "Y"), Contact("A", "1", "X"), Contact("B", "2", "Y")]
  {
    var ca, cb := Contact("A", "1", "X"), Contact("B", "2", "Y");
    ExtractedPair(a, broken);
    assert [a, broken, b][..2] == [a, broken];
    assert Extracted([a, broken, b]) == [ca, cb];
    ExtractedSingle(a);
    ExtractedSingle(b);
    assert Collected(views, 1) == [ca, cb];
    assert Collected(views, 2) == [ca, cb, ca];
  }

  /** A page where the lookup finds no listing containers adds no records and does not end the
      run: with no pager, the single page is scraped and the CSV text is produced, empty. */
  method EmptyPageGoesOn() {
    var views := [PageView(Some([]), None)];
    var results, scraped, targets, csv := Scrape(views);
    RunEnds(views);
    assert scraped == 1 && results == [];
    assert csv == Some("");
  }

  /** No pager: one page, no navigation, exactly that page's complete listings. */
  method NoPager() {
    var a := Listing(Some("A"), Some("1"), Some("X"));
    var views := [PageView(Some([a, a]), None)];
    var results, scraped, targets, csv := Scrape(views);
    RunEnds(views);
    assert scraped == 1 && targets == [];
    ExtractedPair(a, a);
    assert |results| == 2;
  }

  /** The label of page 2 cannot be read: the run stops after page 1 and keeps its records. */
  method SecondLabelMissing() {
    var ls := ThreeLabels(false);
    var a := Listing(Some("A"), Some("1"), Some("X"));
    var views := [PageView(Some([a]), Some(ls)), PageView(Some([a]), Some(ls)), PageView(Some([a]), Some(ls))];
    ThreePages(false);
    assert NatToString(2) == "2" && Trim("1") == "1" && Trim("3") == "3";
    assert forall i :: 0 <= i < |ls| ==> !Matches(ls[i], NatToString(2));
    assert !MovesOn(views, 1);
    var results, scraped, targets, csv := Scrape(views);
    RunEnds(views);
    assert scraped == 1 && targets == [2];
    assert results == Extracted([a]);
  }
}
