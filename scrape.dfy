/**
 * The results-building part of getTrendingMovies: for each of four fixed
 * streaming-service ids, in order, the first two rows of that service's
 * top-10 table become one entry each.
 *
 * The HTML page is an input: the `#<service>` divs present on it, each with the
 * `tbody tr` rows it contains, and for each row the text of the title cell's
 * last div, the title link's href (if any), whether it has a span whose title
 * mentions "original", and the text of the third cell.
 */
module Scrape {

  import opened Wrappers
  import opened Text
  import opened Fields

  /** One `tbody tr` row of a service's table, as the page offers it. */
  datatype Row = Row(
    titleText: string,         // text of `td:nth-child(2) a div:last-child`, untrimmed
    href: Option<string>,      // `href` of the title link, None when absent
    hasOriginalSpan: bool,     // a `span[title*="original"]` exists in the row
    pointsText: string         // text of `td:nth-child(3)`, untrimmed
  )

  /** One pushed result. `points == None` is NaN. */
  datatype Entry = Entry(
    rank: int,
    title: string,
    isOriginal: bool,
    points: Option<int>,
    platform: string,
    date: string
  )

  /** The page: a service id is a key exactly when its `#<service>` div exists,
      and maps to that div's table rows in document order. */
  type Page = map<string, seq<Row>>

  const StreamingServices: seq<string> := ["netflix-1", "hbo-1", "amazon-prime-1", "apple-tv-1"]

  /** `.slice(0, 2)`: how many rows of each service are used. */
  const RowsPerService: nat := 2

  /** The platform names the four service ids give. */
  const KnownPlatformNames: set<string> := {"netflix", "hbo", "amazon prime", "apple tv"}

  /** The entry pushed for the row at `index` of the sliced rows of `service`,
      with `now` the clock's ISO timestamp. */
  function MakeEntry(service: string, index: nat, row: Row, now: string): (e: Entry)
    ensures e.rank == index + 1 && e.isOriginal == row.hasOriginalSpan
    ensures Collapsed(e.title) && '-' !in e.platform && 'T' !in e.date
  {
    Entry(
      index + 1,
      StoredTitle(row.titleText, row.href),
      row.hasOriginalSpan,
      Points(row.pointsText),
      Platform(service),
      DatePart(now))
  }

  /** `serviceDiv.find("tbody tr").slice(0, 2)`, or nothing when the div is absent. */
  function SlicedRows(page: Page, service: string): (rows: seq<Row>)
    ensures |rows| <= RowsPerService
    ensures service !in page ==> rows == []
    ensures service in page ==>
              |rows| == (if |page[service]| < RowsPerService then |page[service]| else RowsPerService)
              && rows == page[service][..|rows|]
  {
    if service !in page then []
    else if |page[service]| <= RowsPerService then page[service]
    else page[service][..RowsPerService]
  }

  /** The entries one service contributes: one per sliced row, ranked 1, 2, ... in
      row order. */
  function ServiceEntries(page: Page, service: string, now: string): (es: seq<Entry>)
    ensures |es| == |SlicedRows(page, service)| <= RowsPerService
    ensures forall j :: 0 <= j < |es| ==> es[j].rank == j + 1
  {
    var rows := SlicedRows(page, service);
    seq(|rows|, j requires 0 <= j < |rows| => MakeEntry(service, j, rows[j], now))
  }

  /** What getTrendingMovies returns when `services` is its list of service ids:
      each service's entries, grouped by service in list order. */
  function Assemble(page: Page, services: seq<string>, now: string): (results: seq<Entry>)
    ensures |results| <= RowsPerService * |services|
  {
    if services == [] then []
    else Assemble(page, services[..|services| - 1], now) + ServiceEntries(page, services[|services| - 1], now)
  }

  /** The results getTrendingMovies builds from a page, with `now` the clock's ISO
      timestamp (`new Date().toISOString()`). */
  method GetTrendingMovies(page: Page, now: string) returns (results: seq<Entry>)
    ensures results == Assemble(page, StreamingServices, now)
    ensures |results| <= 8
    ensures forall k :: 0 <= k < |results| ==>
      1 <= results[k].rank <= RowsPerService && results[k].platform in KnownPlatformNames
      && Collapsed(results[k].title) && results[k].date == DatePart(now)
  {
    results := [];
    for s := 0 to |StreamingServices|
      invariant results == Assemble(page, StreamingServices[..s], now)
    {
      var service := StreamingServices[s];
      AssembleStep(page, StreamingServices, s, now);
      if service in page {
        var rows := page[service];
        var sliced := if |rows| <= RowsPerService then rows else rows[..RowsPerService];
        assert sliced == SlicedRows(page, service);
        ghost var before := results;
        for index := 0 to |sliced|
          invariant results == before + ServiceEntries(page, service, now)[..index]
        {
          var element := sliced[index];
          var titleText := Trim(element.titleText);
          var titleUrl := LinkText(element.href);
          var year := ExtractYear(titleUrl);
          var formattedTitle := FormatTitle(titleText, year);
          var isOriginal := element.hasOriginalSpan;
          var points := ParseInt10(Trim(element.pointsText));
          var entry := Entry(
            index + 1,
            Collapse(formattedTitle),
            isOriginal,
            points,
            Platform(service),
            DatePart(now));
          ServiceEntryAt(page, service, now, index);
          PushEntry(before, ServiceEntries(page, service, now), index, results, entry);
          results := results + [entry];
        }
        assert ServiceEntries(page, service, now)[..|sliced|] == ServiceEntries(page, service, now);
      } else {
        assert ServiceEntries(page, service, now) == [];
      }
    }
    assert StreamingServices[..|StreamingServices|] == StreamingServices;
    TrendingEntriesWellFormed(page, now);
  }

  /** One push of the inner loop extends the prefix of a service's entries. */
  lemma PushEntry(before: seq<Entry>, entries: seq<Entry>, index: nat, results: seq<Entry>, entry: Entry)
    requires index < |entries| && entry == entries[index]
    requires results == before + entries[..index]
    ensures results + [entry] == before + entries[..index + 1]
  {
    assert entries[..index + 1] == entries[..index] + [entry];
    AppendAssoc(before, entries[..index], [entry]);
  }

  /** One round of the outer loop appends the next service's entries. */
  lemma AssembleStep(page: Page, services: seq<string>, s: nat, now: string)
    requires s < |services|
    ensures Assemble(page, services[..s + 1], now)
            == Assemble(page, services[..s], now) + ServiceEntries(page, services[s], now)
  {
    assert services[..s + 1][..s] == services[..s];
    assert services[..s + 1][s] == services[s];
  }

  // ---------------------------------------------------------------------------
  // properties of the assembled results

  /** Assembling over two lists of services one after the other gives the first
      list's entries followed by the second's. */
  lemma {:induction false} AssembleConcat(page: Page, first: seq<string>, second: seq<string>, now: string)
    ensures Assemble(page, first + second, now) == Assemble(page, first, now) + Assemble(page, second, now)
    decreases |second|
  {
    if second == [] {
      assert first + second == first;
    } else {
      var both := first + second;
      var init := second[..|second| - 1];
      assert both[..|both| - 1] == first + init;
      assert both[|both| - 1] == second[|second| - 1];
      AssembleConcat(page, first, init, now);
      AppendAssoc(Assemble(page, first, now), Assemble(page, init, now), ServiceEntries(page, second[|second| - 1], now));
    }
  }

  lemma AssembleSingle(page: Page, service: string, now: string)
    ensures Assemble(page, [service], now) == ServiceEntries(page, service, now)
  {
    assert [service][..0] == [];
  }

  /** The results are netflix's entries, then hbo's, then amazon-prime's, then
      apple-tv's; a service whose div is absent contributes none. */
  lemma TrendingOrder(page: Page, now: string)
    ensures Assemble(page, StreamingServices, now)
            == ServiceEntries(page, "netflix-1", now) + ServiceEntries(page, "hbo-1", now)
               + ServiceEntries(page, "amazon-prime-1", now) + ServiceEntries(page, "apple-tv-1", now)
    ensures forall s :: s !in page ==> ServiceEntries(page, s, now) == []
  {
    var ss := StreamingServices;
    assert ss == [ss[0]] + [ss[1]] + [ss[2]] + [ss[3]];
    AssembleConcat(page, [ss[0]] + [ss[1]] + [ss[2]], [ss[3]], now);
    AssembleConcat(page, [ss[0]] + [ss[1]], [ss[2]], now);
    AssembleConcat(page, [ss[0]], [ss[1]], now);
    AssembleSingle(page, ss[0], now);
    AssembleSingle(page, ss[1], now);
    AssembleSingle(page, ss[2], now);
    AssembleSingle(page, ss[3], now);
  }

  /** Every result is the entry at some index `j` of some listed service's
      entries. */
  lemma {:induction false} AssembleOrigin(page: Page, services: seq<string>, now: string, k: nat)
    requires k < |Assemble(page, services, now)|
    ensures exists i, j :: 0 <= i < |services| && 0 <= j < |ServiceEntries(page, services[i], now)|
              && Assemble(page, services, now)[k] == ServiceEntries(page, services[i], now)[j]
  {
    var init := services[..|services| - 1];
    var last := services[|services| - 1];
    var head := Assemble(page, init, now);
    var tail := ServiceEntries(page, last, now);
    assert Assemble(page, services, now) == head + tail;
    if k < |head| {
      AssembleOrigin(page, init, now, k);
      var i, j :| 0 <= i < |init| && 0 <= j < |ServiceEntries(page, init[i], now)|
                  && head[k] == ServiceEntries(page, init[i], now)[j];
      assert services[i] == init[i];
    } else {
      assert Assemble(page, services, now)[k] == tail[k - |head|];
    }
  }

  /** The entry at index `j` of a service's entries is the one built from its
      `j`-th row, ranked `j + 1`. */
  lemma ServiceEntryAt(page: Page, service: string, now: string, j: nat)
    requires j < |ServiceEntries(page, service, now)|
    ensures ServiceEntries(page, service, now)[j] == MakeEntry(service, j, SlicedRows(page, service)[j], now)
    ensures ServiceEntries(page, service, now)[j].rank == j + 1
  {
  }

  /** Each of the four service ids gives one of the four platform names. */
  lemma KnownServicePlatform(i: nat)
    requires i < |StreamingServices|
    ensures Platform(StreamingServices[i]) in KnownPlatformNames
  {
    if i == 0 {
      NetflixPlatform();
    } else if i == 1 {
      HboPlatform();
    } else if i == 2 {
      AmazonPrimePlatform();
    } else {
      AppleTvPlatform();
    }
  }

  /** An entry built for one of the four services: rank 1 or 2, a collapsed
      title, one of the four platform names and the date part of the clock. */
  lemma EntryWellFormed(i: nat, j: nat, row: Row, now: string)
    requires i < |StreamingServices| && j < RowsPerService
    ensures var e := MakeEntry(StreamingServices[i], j, row, now);
            1 <= e.rank <= RowsPerService && e.platform in KnownPlatformNames
            && Collapsed(e.title) && e.date == DatePart(now)
  {
    KnownServicePlatform(i);
  }

  /** Every entry of the results: rank 1 or 2, a collapsed title, one of the four
      platform names and the date part of the clock reading. */
  lemma TrendingEntriesWellFormed(page: Page, now: string)
    ensures |Assemble(page, StreamingServices, now)| <= 8
    ensures var results := Assemble(page, StreamingServices, now);
            forall k :: 0 <= k < |results| ==>
              1 <= results[k].rank <= RowsPerService && results[k].platform in KnownPlatformNames
              && Collapsed(results[k].title) && results[k].date == DatePart(now)
  {
    var results := Assemble(page, StreamingServices, now);
    forall k | 0 <= k < |results|
      ensures 1 <= results[k].rank <= RowsPerService && results[k].platform in KnownPlatformNames
              && Collapsed(results[k].title) && results[k].date == DatePart(now)
    {
      AssembleOrigin(page, StreamingServices, now, k);
      var i, j :| 0 <= i < |StreamingServices| && 0 <= j < |ServiceEntries(page, StreamingServices[i], now)|
                  && results[k] == ServiceEntries(page, StreamingServices[i], now)[j];
      ServiceEntryAt(page, StreamingServices[i], now, j);
      EntryWellFormed(i, j, SlicedRows(page, StreamingServices[i])[j], now);
    }
  }

  /** The number of results is the sum over the services of how many of their
      rows were taken: at most two each, none for an absent div. */
  function TakenCount(page: Page, services: seq<string>): nat {
    if services == [] then 0
    else TakenCount(page, services[..|services| - 1]) + |SlicedRows(page, services[|services| - 1])|
  }

  lemma {:induction false} AssembleLength(page: Page, services: seq<string>, now: string)
    ensures |Assemble(page, services, now)| == TakenCount(page, services)
    ensures TakenCount(page, services) == 0 <==>
            forall i :: 0 <= i < |services| ==> services[i] !in page || page[services[i]] == []
  {
    if services != [] {
      var init := services[..|services| - 1];
      AssembleLength(page, init, now);
      assert forall i :: 0 <= i < |init| ==> init[i] == services[i];
    }
  }

  /** A page with none of the four divs gives no results. */
  lemma EmptyPage(now: string)
    ensures Assemble(map[], StreamingServices, now) == []
  {
    AssembleLength(map[], StreamingServices, now);
  }
}
