/**
 * The results view: which slice of the results a page shows, the Prev,
 * Next and scroll navigation, the two saved sets a result can be marked
 * in, and the "time ago" wording of dates.
 */
module Pages {
  import opened Text
  import opened Model

  /** `DEFAULT_PAGE_SIZE` (Current) and `default_page_size()` (Legacy). */
  const DEFAULT_PAGE_SIZE: nat := 20

  /** The slice `lo..hi` a page shows and the page number after the fix-up. */
  datatype Window = Window(lo: nat, hi: nat, page: nat)

  /**
   * The slice of page `page`: from `page * size` up to the next page or
   * the end; a page that starts past the end is replaced by the first page.
   */
  function PageWindow(page: nat, size: nat, len: nat): (w: Window)
    ensures w.lo <= w.hi <= len
    ensures w.page == page <==> page * size <= len
    ensures w.page == page || w.page == 0
    ensures w.lo == w.page * size && w.hi == Min(w.lo + size, len)
  {
    var lo := page * size;
    var hi := Min((page + 1) * size, len);
    if lo > hi then Window(0, Min(size, len), 0) else Window(lo, hi, page)
  }

  /** "Prev" and scrolling up are enabled on every page but the first. */
  predicate CanPrev(page: nat)
  {
    page > 0
  }

  /** "Next" and scrolling down are enabled while a later page starts before the end. */
  predicate CanNext(page: nat, size: nat, len: nat)
  {
    (page + 1) * size < len
  }

  /** A page reached with "Next" shows at least one result and needs no fix-up (the page size is at least 10 in the settings). */
  lemma NextPageNotEmpty(page: nat, size: nat, len: nat)
    requires size > 0
    requires CanNext(page, size, len)
    ensures PageWindow(page + 1, size, len).page == page + 1
    ensures PageWindow(page + 1, size, len).lo < PageWindow(page + 1, size, len).hi
  {
  }

  /** Going back from a page that needed no fix-up lands on a page that needs none either. */
  lemma PrevPageValid(page: nat, size: nat, len: nat)
    requires CanPrev(page) && page * size <= len
    ensures PageWindow(page - 1, size, len).page == page - 1
  {
    assert (page - 1) * size == page * size - size;
  }

  /** The scroll wheel: up goes back a page when it can, down goes forward when it can, otherwise nothing. */
  function Scroll(page: nat, size: nat, len: nat, dy: int): (p: nat)
    ensures dy > 0 && CanPrev(page) ==> p == page - 1
    ensures dy < 0 && CanNext(page, size, len) ==> p == page + 1
    ensures !(dy > 0 && CanPrev(page)) && !(dy < 0 && CanNext(page, size, len)) ==> p == page
  {
    if dy > 0 && page > 0 then page - 1
    else if dy < 0 && (page + 1) * size < len then page + 1
    else page
  }

  /** The two saved sets after a click on a row's buttons. */
  datatype Saved = Saved(obvious: set<string>, borderline: set<string>)

  /**
   * The toggles of one row: a click on a set's button removes the name
   * from the other set, and removes it from this set when it was there or
   * adds it when it was not.
   */
  function Toggle(s: Saved, name: string, clickedObv: bool, clickedBorder: bool): (r: Saved)
    ensures name in r.obvious <==>
      (clickedObv && name !in s.obvious) || (!clickedObv && !clickedBorder && name in s.obvious)
    ensures name in r.borderline <==>
      (clickedBorder && name !in s.borderline && !(clickedObv && name !in s.obvious))
      || (!clickedObv && !clickedBorder && name in s.borderline)
    ensures r.obvious - {name} == s.obvious - {name}
    ensures r.borderline - {name} == s.borderline - {name}
  {
    var obvious := name in s.obvious;
    var borderline := name in s.borderline;
    var o1 := if clickedBorder || (clickedObv && obvious) then s.obvious - {name} else s.obvious;
    var b1 := if clickedObv || (clickedBorder && borderline) then s.borderline - {name} else s.borderline;
    if clickedObv && !obvious then Saved(o1 + {name}, b1)
    else if clickedBorder && !borderline then Saved(o1, b1 + {name})
    else Saved(o1, b1)
  }

  /** After any click the name is in at most one of the two sets. */
  lemma ToggleKeepsSetsApart(s: Saved, name: string, clickedObv: bool, clickedBorder: bool)
    requires clickedObv || clickedBorder
    ensures var r := Toggle(s, name, clickedObv, clickedBorder);
      !(name in r.obvious && name in r.borderline)
  {
  }

  /** Clicking the active button of a set takes the name out of it; clicking again puts it back. */
  lemma ClickActiveRemoves(s: Saved, name: string)
    ensures name in s.obvious ==> name !in Toggle(s, name, true, false).obvious
    ensures name in s.borderline ==> name !in Toggle(s, name, false, true).borderline
    ensures name !in s.obvious ==> name in Toggle(s, name, true, false).obvious
    ensures name !in s.borderline ==> name in Toggle(s, name, false, true).borderline
  {
  }

  /** How long ago a date was, as the results table words it. */
  datatype Ago = YearsAgo(years: int) | OneYearAgo | MonthsAgo(months: int) | DaysAgo(days: int)

  /**
   * `timeago` for a duration of `days` whole days: years from two years
   * on, then "1 year", months from 30 days on, days below that (a date in
   * the future gives a negative day count).
   */
  function TimeAgo(days: int): (a: Ago)
    ensures a.YearsAgo? <==> days >= 2 * 365
    ensures a.OneYearAgo? <==> 365 <= days < 2 * 365
    ensures a.MonthsAgo? <==> 30 <= days < 365
    ensures a.DaysAgo? <==> days < 30
    ensures a.YearsAgo? ==> a.years >= 2 && 365 * a.years <= days < 365 * a.years + 365
    ensures a.MonthsAgo? ==> 1 <= a.months <= 12 && 30 * a.months <= days < 30 * a.months + 30
    ensures a.DaysAgo? ==> a.days == days
  {
    if days >= 2 * 365 then YearsAgo(days / 365)
    else if days >= 365 then OneYearAgo
    else if days >= 30 then MonthsAgo(days / 30)
    else DaysAgo(days)
  }

  /** The text shown for a duration. */
  function AgoText(a: Ago): string
  {
    match a
    case YearsAgo(n) => SignedDecimal(n) + " years ago"
    case OneYearAgo => "1 year ago"
    case MonthsAgo(n) => SignedDecimal(n) + " months ago"
    case DaysAgo(n) => SignedDecimal(n) + " days ago"
  }

  /**
   * The label for a day count: the number of whole years from two years on,
   * "1 year ago" in the second year, whole months of 30 days from 30 days
   * on, and the day count below that, with a minus sign for a future date.
   */
  lemma AgoTextWording(days: int)
    ensures days >= 2 * 365 ==> AgoText(TimeAgo(days)) == Decimal(days / 365) + " years ago"
    ensures 365 <= days < 2 * 365 ==> AgoText(TimeAgo(days)) == "1 year ago"
    ensures 30 <= days < 365 ==> AgoText(TimeAgo(days)) == Decimal(days / 30) + " months ago"
    ensures 0 <= days < 30 ==> AgoText(TimeAgo(days)) == Decimal(days) + " days ago"
    ensures days < 0 ==> AgoText(TimeAgo(days)) == "-" + Decimal(-days) + " days ago"
  {
  }

  /** The wording changes exactly at 30 days, one year and two years. */
  lemma TimeAgoBoundaries()
    ensures TimeAgo(29) == DaysAgo(29) && TimeAgo(30) == MonthsAgo(1)
    ensures TimeAgo(364) == MonthsAgo(12) && TimeAgo(365) == OneYearAgo
    ensures TimeAgo(729) == OneYearAgo && TimeAgo(730) == YearsAgo(2)
  {
  }
}
