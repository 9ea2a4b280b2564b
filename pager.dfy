/** The pager of worker/worker.js: the page-number labels of `ul.c411Paging`, the page count
    that `getTotalPages` reads from them, and the label search in `scrape` that clicks through
    to the next page. The browser is abstracted: each label is given by what reading its text
    and clicking its anchor would do. */
module Pager {
  import opened Wrappers

  /** One `<li>` of the pager: its text (None when `getText` threw), and whether finding its
      `<a>` and clicking it both succeed. */
  datatype Label = Label(text: Option<string>, clickable: bool)

  /** The pager's labels in page order; None when finding the pager or its labels threw. */
  type Pager = Option<seq<Label>>

  // ---------------------------------------------------------------------------------------
  // Text of a label

  /** The characters JavaScript's `String.prototype.trim` removes: white space and line
      terminators. */
  predicate IsSpace(c: char) {
    var n := c as int;
    || n == 0x09 || n == 0x0A || n == 0x0B || n == 0x0C || n == 0x0D || n == 0x20 || n == 0xA0
    || n == 0x1680 || (0x2000 <= n <= 0x200A) || n == 0x2028 || n == 0x2029 || n == 0x202F
    || n == 0x205F || n == 0x3000 || n == 0xFEFF
  }

  /** Strips leading white space. */
  function TrimStart(s: string): string {
    if s != [] && IsSpace(s[0]) then TrimStart(s[1..]) else s
  }

  /** Strips trailing white space. */
  function TrimEnd(s: string): string {
    if s != [] && IsSpace(s[|s| - 1]) then TrimEnd(s[..|s| - 1]) else s
  }

  /** `TrimStart(s)` is a suffix of `s`, what it cuts is all white space, and it does not start
      with white space. */
  lemma {:induction false} TrimStartStrips(s: string)
    ensures |TrimStart(s)| <= |s| && TrimStart(s) == s[|s| - |TrimStart(s)|..]
    ensures forall m :: 0 <= m < |s| - |TrimStart(s)| ==> IsSpace(s[m])
    ensures TrimStart(s) == [] || !IsSpace(TrimStart(s)[0])
  {
    if s != [] && IsSpace(s[0]) {
      var t := TrimStart(s[1..]);
      TrimStartStrips(s[1..]);
      assert TrimStart(s) == t;
      assert s[1..][|s| - 1 - |t|..] == s[|s| - |t|..];
      assert forall m :: 1 <= m < |s| ==> s[m] == s[1..][m - 1];
    }
  }

  /** `TrimEnd(s)` is a prefix of `s`, what it cuts is all white space, and it does not end with
      white space. */
  lemma {:induction false} TrimEndStrips(s: string)
    ensures |TrimEnd(s)| <= |s| && TrimEnd(s) == s[..|TrimEnd(s)|]
    ensures forall m :: |TrimEnd(s)| <= m < |s| ==> IsSpace(s[m])
    ensures TrimEnd(s) == [] || !IsSpace(TrimEnd(s)[|TrimEnd(s)| - 1])
  {
    if s != [] && IsSpace(s[|s| - 1]) {
      TrimEndStrips(s[..|s| - 1]);
    }
  }

  /** `s.trim()`. */
  function Trim(s: string): string {
    TrimEnd(TrimStart(s))
  }

  predicate IsDigit(c: char) {
    '0' <= c <= '9'
  }

  /** `/^\d+$/.test(s)`: at least one character, every one an ASCII digit. */
  predicate IsDigits(s: string) {
    |s| > 0 && forall i :: 0 <= i < |s| ==> IsDigit(s[i])
  }

  /** `parseInt(s, 10)` on a string of digits, as an exact number. */
  function DecimalValue(s: string): nat
    requires forall i :: 0 <= i < |s| ==> IsDigit(s[i])
  {
    if s == [] then 0
    else
      var last := s[|s| - 1];
      assert IsDigit(last);
      DecimalValue(s[..|s| - 1]) * 10 + (last as int - '0' as int)
  }

  /** `String(n)`: the decimal digits of `n`, with no leading zero. */
  function NatToString(n: nat): string
  {
    var d := ('0' as int + n % 10) as char;
    if n < 10 then [d] else NatToString(n / 10) + [d]
  }

  /** `String(n)` is a digit string with no leading zero that `parseInt` reads back as `n`. */
  lemma {:induction false} NatToStringRoundTrip(n: nat)
    ensures IsDigits(NatToString(n))
    ensures DecimalValue(NatToString(n)) == n
    ensures NatToString(n)[0] == '0' ==> n == 0
  {
    var s := NatToString(n);
    if n >= 10 {
      NatToStringRoundTrip(n / 10);
      assert s[..|s| - 1] == NatToString(n / 10);
    }
  }

  lemma {:induction false} LeadingDigitPositive(s: string)
    requires IsDigits(s) && s[0] != '0'
    ensures DecimalValue(s) > 0
  {
    if |s| > 1 {
      LeadingDigitPositive(s[..|s| - 1]);
    }
  }

  /** Conversely, a digit string with no leading zero (or "0" itself) is `String` of its value:
      such a label is exactly the one the navigation looks for. */
  lemma {:induction false} DecimalValueRoundTrip(s: string)
    requires IsDigits(s)
    requires s[0] == '0' ==> s == "0"
    ensures NatToString(DecimalValue(s)) == s
  {
    var n := DecimalValue(s);
    if |s| == 1 {
      assert s == [('0' as int + n % 10) as char];
    } else {
      var init := s[..|s| - 1];
      LeadingDigitPositive(init);
      DecimalValueRoundTrip(init);
      assert n / 10 == DecimalValue(init);
      assert s == init + [('0' as int + n % 10) as char];
    }
  }

  // ---------------------------------------------------------------------------------------
  // getTotalPages

  /** The page number a label shows: its trimmed text read as a number when the text could be
      read and is all digits. */
  function LabelNumber(l: Label): Option<nat> {
    match l.text
    case None => None
    case Some(raw) => if IsDigits(Trim(raw)) then Some(DecimalValue(Trim(raw))) else None
  }

  /** The largest page number among the labels, 0 when there is none, folded from the left as
      the loop of `getTotalPages` folds it. */
  function MaxLabel(labels: seq<Label>): nat {
    if labels == [] then 0
    else
      var m := MaxLabel(labels[..|labels| - 1]);
      match LabelNumber(labels[|labels| - 1])
      case Some(n) => if n > m then n else m
      case None => m
  }

  /** `getTotalPages`: the largest page number on the pager, or 1 when the pager is missing or
      no label shows a positive number. */
  function TotalPages(pager: Pager): nat {
    match pager
    case None => 1
    case Some(labels) => if MaxLabel(labels) == 0 then 1 else MaxLabel(labels)
  }

  lemma {:induction false} MaxLabelIsMaximum(labels: seq<Label>)
    ensures forall i :: 0 <= i < |labels| && LabelNumber(labels[i]).Some? ==>
      LabelNumber(labels[i]).value <= MaxLabel(labels)
    ensures MaxLabel(labels) == 0 || exists i :: 0 <= i < |labels| && LabelNumber(labels[i]) == Some(MaxLabel(labels))
  {
    if labels != [] {
      var init := labels[..|labels| - 1];
      MaxLabelIsMaximum(init);
      assert forall i :: 0 <= i < |init| ==> init[i] == labels[i];
    }
  }

  /** The page count is at least 1; it is no smaller than any page number on the pager; and it
      is 1 or one of those page numbers. A missing pager gives 1. */
  lemma TotalPagesIsMaximum(pager: Pager)
    ensures TotalPages(pager) >= 1
    ensures pager.None? ==> TotalPages(pager) == 1
    ensures pager.Some? ==> forall i :: 0 <= i < |pager.value| && LabelNumber(pager.value[i]).Some? ==>
      LabelNumber(pager.value[i]).value <= TotalPages(pager)
    ensures TotalPages(pager) == 1 || (pager.Some? &&
      exists i :: 0 <= i < |pager.value| && LabelNumber(pager.value[i]) == Some(TotalPages(pager)))
  {
    if pager.Some? {
      MaxLabelIsMaximum(pager.value);
    }
  }

  /** When every page number on the pager is 0 (or there is none), the page count is 1. */
  lemma TotalPagesFallback(labels: seq<Label>)
    requires forall i :: 0 <= i < |labels| && LabelNumber(labels[i]).Some? ==> LabelNumber(labels[i]).value == 0
    ensures TotalPages(Some(labels)) == 1
  {
    MaxLabelIsMaximum(labels);
  }

  /** `getTotalPages`, with the pager read from the browser given as `pager`. */
  method GetTotalPages(pager: Pager) returns (pages: nat)
    ensures pages == TotalPages(pager)
    ensures pages >= 1
  {
    match pager
    case None =>
      return 1;
    case Some(labels) =>
      var totalPages: nat := 0;
      for i := 0 to |labels|
        invariant totalPages == MaxLabel(labels[..i])
      {
        assert labels[..i + 1][..i] == labels[..i];
        match labels[i].text {
          case None =>
          case Some(raw) =>
            var txt := Trim(raw);
            if IsDigits(txt) {
              var num := DecimalValue(txt);
              if num > totalPages {
                totalPages := num;
              }
            }
        }
      }
      assert labels[..|labels|] == labels;
      if totalPages == 0 {
        return 1;
      }
      return totalPages;
  }

  // ---------------------------------------------------------------------------------------
  // Navigation by label

  /** A label whose text could be read and trims to `target`. */
  predicate Matches(l: Label, target: string) {
    l.text.Some? && Trim(l.text.value) == target
  }

  /** A matching label whose anchor is clicked without error. */
  predicate Clicks(l: Label, target: string) {
    Matches(l, target) && l.clickable
  }

  /** Navigation to `target` can succeed: the pager is there and one of its labels clicks. */
  predicate Navigates(pager: Pager, target: string) {
    pager.Some? && exists i :: 0 <= i < |pager.value| && Clicks(pager.value[i], target)
  }

  /** The positions, in order, of the labels before position `k` that match `target`. */
  function MatchingBefore(labels: seq<Label>, target: string, k: nat): seq<nat>
    requires k <= |labels|
  {
    if k == 0 then []
    else MatchingBefore(labels, target, k - 1) + (if Matches(labels[k - 1], target) then [k - 1] else [])
  }

  /** `MatchingBefore` holds every matching position below `k`, and nothing else, in increasing
      order. */
  lemma {:induction false} MatchingBeforeExactly(labels: seq<Label>, target: string, k: nat)
    requires k <= |labels|
    ensures forall j :: 0 <= j < |MatchingBefore(labels, target, k)| ==>
      MatchingBefore(labels, target, k)[j] < k && Matches(labels[MatchingBefore(labels, target, k)[j]], target)
    ensures forall i :: 0 <= i < k && Matches(labels[i], target) ==> i in MatchingBefore(labels, target, k)
    ensures forall j, j' :: 0 <= j < j' < |MatchingBefore(labels, target, k)| ==>
      MatchingBefore(labels, target, k)[j] < MatchingBefore(labels, target, k)[j']
  {
    if k > 0 {
      MatchingBeforeExactly(labels, target, k - 1);
      var prev := MatchingBefore(labels, target, k - 1);
      var m := MatchingBefore(labels, target, k);
      if Matches(labels[k - 1], target) {
        assert m == prev + [k - 1];
      } else {
        assert m == prev;
      }
    }
  }

  /** The clicks a label search tried, given whether one succeeded: when one did, every
      matching label up to and including the first label that clicks, and that label is the
      last one tried; when none did, every matching label. */
  predicate TriedInOrder(labels: seq<Label>, target: string, clicked: bool, attempts: seq<nat>) {
    if clicked then
      && |attempts| > 0
      && var k := attempts[|attempts| - 1];
      && k < |labels|
      && Clicks(labels[k], target)
      && (forall j :: 0 <= j < k ==> !Clicks(labels[j], target))
      && attempts == MatchingBefore(labels, target, k + 1)
    else
      attempts == MatchingBefore(labels, target, |labels|)
  }

  /** The label search of `scrape` for the page whose label is `target`. It tries to click every
      matching label in order, skipping labels whose text cannot be read and going on past a
      click that throws, and stops at the first click that succeeds. `attempts` are the
      positions whose click was tried. */
  method GoToPage(pager: Pager, target: string) returns (clicked: bool, attempts: seq<nat>)
    ensures clicked == Navigates(pager, target)
    ensures pager.None? ==> attempts == []
    ensures pager.Some? ==> TriedInOrder(pager.value, target, clicked, attempts)
  {
    clicked, attempts := false, [];
    if pager.None? {
      return;
    }
    var labels := pager.value;
    var i := 0;
    while i < |labels|
      invariant 0 <= i <= |labels|
      invariant !clicked
      invariant attempts == MatchingBefore(labels, target, i)
      invariant forall j :: 0 <= j < i ==> !Clicks(labels[j], target)
    {
      match labels[i].text {
        case None =>
        case Some(raw) =>
          var txt := Trim(raw);
          if txt == target {
            attempts := attempts + [i];
            if labels[i].clickable {
              clicked := true;
              break;
            }
          }
      }
      i := i + 1;
    }
  }

  /** A label the navigation clicks for `String(n)` shows page number `n`. */
  lemma ClickedLabelShowsPage(l: Label, n: nat)
    requires Matches(l, NatToString(n))
    ensures LabelNumber(l) == Some(n)
  {
    NatToStringRoundTrip(n);
  }

  /** Navigation to page `n` succeeds only on a pager whose own page count is at least `n`. */
  lemma NavigatesWithinPageCount(pager: Pager, n: nat)
    requires Navigates(pager, NatToString(n))
    ensures n <= TotalPages(pager)
  {
    var i :| 0 <= i < |pager.value| && Clicks(pager.value[i], NatToString(n));
    ClickedLabelShowsPage(pager.value[i], n);
    TotalPagesIsMaximum(pager);
  }
}
