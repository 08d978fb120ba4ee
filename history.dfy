/**
 * History entries as the history list presents them: the date buckets the
 * list groups entries into, the wrapper around a history node with its
 * field-update rules, and the searches the class functions request from the
 * history engine.
 *
 * Instants are integers on one time line. The start of today (what
 * `getDate(0)` computes from the calendar) and the length of a day are
 * parameters, so `getDate(k)` is `startOfToday + k * dayLength`.
 */
module History {
  import opened Wrappers

  /** The sections of the history list, newest first. */
  datatype Section = Today | Yesterday | LastWeek | ThisMonth

  /** The `Int` raw value of a section. */
  function SectionRaw(s: Section): nat {
    match s
    case Today => 0
    case Yesterday => 1
    case LastWeek => 2
    case ThisMonth => 3
  }

  /** How old a bucket is: sections by raw value, no section after all. */
  function Age(s: Option<Section>): nat {
    if s.None? then 4 else SectionRaw(s.value)
  }

  const TodayOffset: int := 0
  const YesterdayOffset: int := -1
  const ThisWeekOffset: int := -7
  const ThisMonthOffset: int := -31

  /** `getDate(dayOffset)`: the start of today moved by whole days. */
  function GetDate(startOfToday: int, dayLength: int, dayOffset: int): (r: int)
    ensures dayOffset == 0 ==> r == startOfToday
    ensures dayLength > 0 ==> (r < startOfToday <==> dayOffset < 0)
  {
    startOfToday + dayOffset * dayLength
  }

  /** `created?.compare(d) == .orderedDescending`: a present date strictly
      after `d`. */
  predicate After(created: Option<int>, d: int) {
    created.Some? && created.value > d
  }

  /** `fetchHistoryTimePeriod`: the first threshold, newest first, that the
      date is strictly after. */
  function FetchHistoryTimePeriod(created: Option<int>, startOfToday: int, dayLength: int): Option<Section> {
    if After(created, GetDate(startOfToday, dayLength, TodayOffset)) then Some(Today)
    else if After(created, GetDate(startOfToday, dayLength, YesterdayOffset)) then Some(Yesterday)
    else if After(created, GetDate(startOfToday, dayLength, ThisWeekOffset)) then Some(LastWeek)
    else if After(created, GetDate(startOfToday, dayLength, ThisMonthOffset)) then Some(ThisMonth)
    else None
  }

  /** With days of non-negative length the buckets are the half-open
      intervals between consecutive thresholds, open at the older end. */
  lemma BucketIntervals(created: Option<int>, startOfToday: int, dayLength: int)
    requires dayLength >= 0
    ensures FetchHistoryTimePeriod(created, startOfToday, dayLength) == Some(Today)
      <==> created.Some? && startOfToday < created.value
    ensures FetchHistoryTimePeriod(created, startOfToday, dayLength) == Some(Yesterday)
      <==> created.Some? && startOfToday - dayLength < created.value <= startOfToday
    ensures FetchHistoryTimePeriod(created, startOfToday, dayLength) == Some(LastWeek)
      <==> created.Some? && startOfToday - 7 * dayLength < created.value <= startOfToday - dayLength
    ensures FetchHistoryTimePeriod(created, startOfToday, dayLength) == Some(ThisMonth)
      <==> created.Some? && startOfToday - 31 * dayLength < created.value <= startOfToday - 7 * dayLength
    ensures FetchHistoryTimePeriod(created, startOfToday, dayLength).None?
      <==> created.None? || created.value <= startOfToday - 31 * dayLength
  {
  }

  /** A visit exactly at midnight is not today's: it is yesterday's. */
  lemma MidnightIsYesterday(startOfToday: int, dayLength: int)
    requires dayLength > 0
    ensures FetchHistoryTimePeriod(Some(startOfToday), startOfToday, dayLength) == Some(Yesterday)
  {
  }

  /** A later visit never lands in an older bucket than an earlier one. */
  lemma {:induction false} BucketMonotone(earlier: int, later: int, startOfToday: int, dayLength: int)
    requires dayLength >= 0 && earlier <= later
    ensures Age(FetchHistoryTimePeriod(Some(later), startOfToday, dayLength))
         <= Age(FetchHistoryTimePeriod(Some(earlier), startOfToday, dayLength))
  {
    BucketIntervals(Some(earlier), startOfToday, dayLength);
    BucketIntervals(Some(later), startOfToday, dayLength);
  }

  // ---------------------------------------------------------------------------
  // Entries
  // ---------------------------------------------------------------------------

  /** The engine's `HistoryNode`, whose fields the wrapper updates in place. */
  class HistoryNode {
    var url: string
    var title: string
    var dateAdded: int

    constructor (url: string, title: string, dateAdded: int)
      ensures this.url == url && this.title == title && this.dateAdded == dateAdded
    {
      this.url := url;
      this.title := title;
      this.dateAdded := dateAdded;
    }
  }

  /** `Historyv2`: a lightweight wrapper around a history node. */
  class Historyv2 {
    const historyNode: HistoryNode

    constructor (node: HistoryNode)
      ensures historyNode == node
    {
      historyNode := node;
    }

    /** The `created` getter. The node's `dateAdded` is not optional, so
        the getter is never nil. */
    function Created(): (r: Option<int>)
      reads historyNode
      ensures r.Some?
    {
      Some(historyNode.dateAdded)
    }

    /** The `created` setter: nil stands for the current time `now`. */
    method SetCreated(newValue: Option<int>, now: int)
      modifies historyNode
      ensures historyNode.dateAdded == if newValue.Some? then newValue.value else now
      ensures Created() == if newValue.Some? then newValue else Some(now)
      ensures historyNode.title == old(historyNode.title) && historyNode.url == old(historyNode.url)
    {
      historyNode.dateAdded := if newValue.Some? then newValue.value else now;
    }

    /** `sectionID`: the bucket of the creation date. */
    function SectionId(startOfToday: int, dayLength: int): (r: Option<Section>)
      reads historyNode
      ensures r == Some(Today) <==> historyNode.dateAdded > startOfToday
      ensures r.Some?
                <== historyNode.dateAdded > GetDate(startOfToday, dayLength, ThisMonthOffset)
    {
      FetchHistoryTimePeriod(Created(), startOfToday, dayLength)
    }

    /** `update(customTitle:dateAdded:)`: each given value replaces its
        field; everything else stays. */
    method Update(customTitle: Option<string>, dateAdded: Option<int>)
      modifies historyNode
      ensures historyNode.title == if customTitle.Some? then customTitle.value else old(historyNode.title)
      ensures historyNode.dateAdded == if dateAdded.Some? then dateAdded.value else old(historyNode.dateAdded)
      ensures historyNode.url == old(historyNode.url)
    {
      if customTitle.Some? {
        historyNode.title := customTitle.value;
      }
      if dateAdded.Some? {
        historyNode.dateAdded := dateAdded.value;
      }
    }
  }

  // ---------------------------------------------------------------------------
  // Searches
  // ---------------------------------------------------------------------------

  /** The arguments of `historyAPI.search(withQuery:maxCount:)`. The history
      engine's query may be nil, which `suffix` uses; the bookmark engine's
      search has its own request type in `BookmarkManagement`. */
  datatype SearchRequest = SearchRequest(query: Option<string>, maxCount: nat)

  /** `suffix(maxLength)`: asks for every entry, at least twenty of them. */
  function SuffixRequest(maxLength: int): (r: SearchRequest)
    ensures r.query.None?
    ensures r.maxCount >= 20 && r.maxCount >= maxLength
    ensures r.maxCount == 20 || r.maxCount == maxLength
  {
    SearchRequest(None, if maxLength > 20 then maxLength else 20)
  }

  /** The result limit of `byFrequency` here; the bookmark manager's limit
      happens to be the same number but belongs to the other engine. */
  const FrequencyMaxCount: nat := 200

  /** The `byFrequency` guard: a nil or empty query returns before any
      search, so the completion is never called. */
  predicate HasQuery(query: Option<string>) {
    query.Some? && query.value != ""
  }

  /** `Historyv2.byFrequency` as written: past the guard it searches with no
      query at all. */
  function ByFrequencyRequestAsWritten(query: Option<string>): (r: Option<SearchRequest>)
    ensures r.None? <==> !HasQuery(query)
    ensures r.Some? ==> r.value == SearchRequest(None, FrequencyMaxCount)
  {
    if !HasQuery(query) then None else Some(SearchRequest(None, FrequencyMaxCount))
  }

  /** As written, two different queries get the same request, and so the
      same results: the query only decides whether a search happens. */
  lemma ByFrequencyIgnoresQuery()
    ensures ByFrequencyRequestAsWritten(Some("abc")) == ByFrequencyRequestAsWritten(Some("xyz"))
    ensures ByFrequencyRequestAsWritten(Some("abc")).value.query != Some("abc")
  {
  }

  /** `byFrequency` as intended (and as the history engine's own extension
      writes it): past the guard it searches for the query. */
  function ByFrequencyRequest(query: Option<string>): (r: Option<SearchRequest>)
    ensures r.None? <==> !HasQuery(query)
    ensures r.Some? ==> r.value.query == query && r.value.maxCount == FrequencyMaxCount
  {
    if !HasQuery(query) then None else Some(SearchRequest(query, FrequencyMaxCount))
  }

  /** Corrected, different queries make different requests, and the two
      versions agree on when a search happens. */
  lemma ByFrequencyRequestDistinguishesQueries(q1: Option<string>, q2: Option<string>)
    requires HasQuery(q1) && HasQuery(q2) && q1 != q2
    ensures ByFrequencyRequest(q1) != ByFrequencyRequest(q2)
    ensures ByFrequencyRequest(q1).Some? == ByFrequencyRequestAsWritten(q1).Some?
  {
  }
}
