/**
 * The fields getTrendingMovies derives for one table row and one service id:
 * the release year taken from the title link, the stored title, the platform
 * name, the points and the date.
 */
module Fields {

  import opened Wrappers
  import opened Text

  // ---------------------------------------------------------------------------
  // year: titleUrl.match(/-(\d{4})(?:\/|$)/)

  /** The pattern `-(\d{4})(?:\/|$)` matches `url` at position `i`: a dash,
      four decimal digits, then a slash or the end of the string. */
  predicate YearAt(url: string, i: int) {
    0 <= i && i + 5 <= |url| && url[i] == '-' && AllDigits(url[i + 1..i + 5])
    && (i + 5 == |url| || url[i + 5] == '/')
  }

  /** The leftmost position at or after `from` where the pattern matches. */
  function FindYear(url: string, from: nat): (at: Option<nat>)
    ensures at.Some? ==> from <= at.value && YearAt(url, at.value)
    ensures forall j :: from <= j && (at.None? || j < at.value) ==> !YearAt(url, j)
    decreases |url| - from
  {
    if from + 5 > |url| then None
    else if YearAt(url, from) then Some(from)
    else FindYear(url, from + 1)
  }

  /** `yearMatch ? yearMatch[1] : ""`: the four digits of the leftmost match, or
      the empty string when the pattern matches nowhere. */
  function ExtractYear(url: string): (year: string)
    ensures year == [] || (|year| == 4 && AllDigits(year))
    ensures year != [] <==> exists i :: YearAt(url, i)
    ensures year != [] ==> exists i :: YearAt(url, i) && year == url[i + 1..i + 5]
                                       && forall j :: 0 <= j < i ==> !YearAt(url, j)
  {
    match FindYear(url, 0)
    case None => ""
    case Some(i) => url[i + 1..i + 5]
  }

  /** `titleElement.attr("href") || ""`: a missing (or empty) link is the empty string. */
  function LinkText(href: Option<string>): (url: string)
    ensures url == "" <==> href.None? || href.value == ""
    ensures url != "" ==> href == Some(url)
  {
    match href
    case None => ""
    case Some(h) => h
  }

  /** A missing link has no year. */
  lemma MissingLinkHasNoYear()
    ensures ExtractYear(LinkText(None)) == ""
  {
  }

  // ---------------------------------------------------------------------------
  // title

  /** `year ? `${titleText} (${year})` : titleText`. */
  function FormatTitle(titleText: string, year: string): (title: string)
    ensures |titleText| <= |title| && title[..|titleText|] == titleText
    ensures year == "" <==> title == titleText
    ensures year != "" ==> title[|titleText|..] == " (" + year + ")"
  {
    if year == "" then titleText else titleText + " (" + year + ")"
  }

  /** The title getTrendingMovies stores: the trimmed text of the title cell, the
      year suffix when the link carries one, then `replace(/\s+/g, " ")`. */
  function StoredTitle(rawTitle: string, href: Option<string>): (title: string)
    ensures Collapsed(title) && Collapse(title) == title
  {
    var title := Collapse(FormatTitle(Trim(rawTitle), ExtractYear(LinkText(href))));
    CollapseFixpoint(title);
    title
  }

  /** A year suffix ` (YYYY)` is already in collapsed form. */
  lemma {:induction false} YearSuffixCollapsed(year: string)
    requires |year| == 4 && AllDigits(year)
    ensures Collapse(" (" + year + ")") == " (" + year + ")"
  {
    var suffix := " (" + year + ")";
    assert suffix == [' ', '(', year[0], year[1], year[2], year[3], ')'];
    assert Collapsed(suffix[6..]);
    assert Collapsed(suffix[5..]);
    assert Collapsed(suffix[4..]);
    assert Collapsed(suffix[3..]);
    assert Collapsed(suffix[2..]);
    assert Collapsed(suffix[1..]);
    CollapseFixpoint(suffix);
  }

  /** The stored title is the collapsed, trimmed title text, followed by
      ` (YYYY)` exactly when the link yields a year; it has no run of two
      whitespace characters, and collapsing it again leaves it unchanged. */
  lemma StoredTitleShape(rawTitle: string, href: Option<string>)
    ensures var year := ExtractYear(LinkText(href));
            StoredTitle(rawTitle, href)
            == Collapse(Trim(rawTitle)) + (if year == "" then "" else " (" + year + ")")
    ensures Collapsed(StoredTitle(rawTitle, href))
    ensures Collapse(StoredTitle(rawTitle, href)) == StoredTitle(rawTitle, href)
  {
    var text := Trim(rawTitle);
    var year := ExtractYear(LinkText(href));
    if year != "" {
      CollapseConcat(text, " (" + year + ")");
      assert text + " (" + year + ")" == text + (" (" + year + ")");
      YearSuffixCollapsed(year);
    }
    CollapseIdempotent(FormatTitle(text, year));
  }

  /** With a year the stored title ends in a space, an opening parenthesis, the
      four digits and a closing parenthesis. */
  lemma StoredTitleSuffix(rawTitle: string, href: Option<string>)
    requires ExtractYear(LinkText(href)) != ""
    ensures var t := StoredTitle(rawTitle, href);
            |t| >= 7 && t[|t| - 7] == ' ' && t[|t| - 6] == '(' && t[|t| - 1] == ')'
            && AllDigits(t[|t| - 5..|t| - 1])
            && t[|t| - 5..|t| - 1] == ExtractYear(LinkText(href))
  {
    StoredTitleShape(rawTitle, href);
    var year := ExtractYear(LinkText(href));
    var t := StoredTitle(rawTitle, href);
    var head := Collapse(Trim(rawTitle));
    assert t == head + " (" + year + ")";
    assert t[|t| - 5..|t| - 1] == year;
  }

  // ---------------------------------------------------------------------------
  // platform: service.split("-")[0] + (second && isNaN(second) ? " " + second : "")

  /** `isNaN(segment)` for a non-empty segment; a segment of decimal digits
      is a number. */
  predicate NotANumber(segment: string) {
    !AllDigits(segment)
  }

  /** The platform name of a service id: its first dash-separated segment, plus a
      space and the second segment when there is a non-empty, non-numeric one. */
  function Platform(service: string): (name: string)
    ensures '-' !in name
    ensures |name| <= |service|
  {
    var parts := Split(service, '-');
    JoinSplit(service, '-');
    JoinHead(parts, '-');
    parts[0] + (if |parts| > 1 && parts[1] != "" && NotANumber(parts[1]) then " " + parts[1] else "")
  }

  /** A join is at least as long as its first piece, plus a separator and the
      second piece when there is one. */
  lemma JoinHead(parts: seq<string>, sep: char)
    requires |parts| >= 1
    ensures |Join(parts, sep)| >= |parts[0]| + (if |parts| > 1 then 1 + |parts[1]| else 0)
  {
    if |parts| > 2 {
      assert parts[1..][0] == parts[1];
    }
  }

  /** The first piece of a split is everything before the first separator. */
  lemma {:induction false} SplitFirst(head: string, sep: char, rest: string)
    requires sep !in head
    ensures Split(head + [sep] + rest, sep)[0] == head
  {
    if head != [] {
      assert (head + [sep] + rest)[1..] == head[1..] + [sep] + rest;
      SplitFirst(head[1..], sep, rest);
    } else {
      assert head + [sep] + rest == [sep] + rest;
    }
  }

  /** The platform name depends on the first two segments of the service id
      only; a numeric or empty second segment adds nothing. */
  lemma PlatformOfSegments(first: string, second: string, rest: seq<string>)
    requires forall p <- [first, second] + rest :: '-' !in p
    ensures Platform(Join([first, second] + rest, '-'))
            == first + (if second != "" && NotANumber(second) then " " + second else "")
  {
    SplitJoin([first, second] + rest, '-');
  }

  /** A service id without a dash is its own platform name. */
  lemma PlatformOfSingleSegment(service: string)
    requires '-' !in service
    ensures Platform(service) == service
  {
    SplitJoin([service], '-');
  }

  /** The four service ids getTrendingMovies reads and the names they give:
      a numeric second segment adds nothing, a word is kept after a space. */
  lemma NetflixPlatform()
    ensures Platform("netflix-1") == "netflix"
  {
    NumericSecondSegment("netflix");
    assert "netflix" + "-1" == "netflix-1";
  }

  lemma HboPlatform()
    ensures Platform("hbo-1") == "hbo"
  {
    NumericSecondSegment("hbo");
    assert "hbo" + "-1" == "hbo-1";
  }

  lemma AmazonPrimePlatform()
    ensures Platform("amazon-prime-1") == "amazon prime"
  {
    assert NotANumber("prime") by { assert !IsDigit("prime"[0]); }
    WordSecondSegment("amazon", "prime");
    assert "amazon" + "-" + "prime" + "-1" == "amazon-prime-1";
    assert "amazon" + " " + "prime" == "amazon prime";
  }

  lemma AppleTvPlatform()
    ensures Platform("apple-tv-1") == "apple tv"
  {
    assert NotANumber("tv") by { assert !IsDigit("tv"[0]); }
    WordSecondSegment("apple", "tv");
    assert "apple" + "-" + "tv" + "-1" == "apple-tv-1";
    assert "apple" + " " + "tv" == "apple tv";
  }

  /** A numeric second segment adds nothing to the platform name. */
  lemma NumericSecondSegment(name: string)
    requires '-' !in name
    ensures Platform(name + "-1") == name
  {
    PlatformOf(name, "1", []);
    assert name + "-" + "1" + "" == name + "-1";
  }

  /** A second segment that is not a number is kept, after a space. */
  lemma WordSecondSegment(first: string, second: string)
    requires '-' !in first && '-' !in second
    requires second != "" && NotANumber(second)
    ensures Platform(first + "-" + second + "-1") == first + " " + second
  {
    PlatformOf(first, second, ["1"]);
    assert first + "-" + second + ("-" + "1") == first + "-" + second + "-1";
  }

  lemma PlatformOf(first: string, second: string, rest: seq<string>)
    requires forall p <- [first, second] + rest :: '-' !in p
    requires |rest| <= 1
    ensures Platform(first + "-" + second + (if rest == [] then "" else "-" + rest[0]))
            == first + (if second != "" && NotANumber(second) then " " + second else "")
  {
    var parts := [first, second] + rest;
    PlatformOfSegments(first, second, rest);
    assert parts[1..] == [second] + rest;
    if rest == [] {
      assert Join(parts[1..], '-') == second;
      assert Join(parts, '-') == first + "-" + second + "";
    } else {
      assert parts[1..][1..] == rest;
      assert Join(parts[1..], '-') == second + "-" + rest[0];
      assert Join(parts, '-') == first + "-" + (second + "-" + rest[0]);
      assert first + "-" + (second + "-" + rest[0]) == first + "-" + second + ("-" + rest[0]);
    }
  }

  // ---------------------------------------------------------------------------
  // points: parseInt(cell.text().trim(), 10)

  /** The points of a row: the trimmed third cell read by `parseInt(_, 10)`;
      `None` stands for NaN. NaN comes exactly when no digit follows the
      optional sign, and a negative value only from a cell starting with `-`. */
  function Points(cellText: string): (points: Option<int>)
    ensures var u := Unsigned(Trim(cellText));
            points.None? <==> u == [] || !IsDigit(u[0])
    ensures points.Some? && points.value < 0 ==> Trim(cellText)[0] == '-'
  {
    var t := Trim(cellText);
    assert TrimStart(t) == t;
    ParseInt10(t)
  }

  lemma {:induction false} TrimStartPadding(pad: string, x: string)
    requires AllSpace(pad)
    requires x == [] || !IsSpace(x[0])
    ensures TrimStart(pad + x) == x
  {
    if pad == [] {
      assert pad + x == x;
    } else {
      assert (pad + x)[0] == pad[0] && (pad + x)[1..] == pad[1..] + x;
      TrimStartPadding(pad[1..], x);
    }
  }

  lemma {:induction false} TrimEndPadding(x: string, pad: string)
    requires AllSpace(pad)
    requires x == [] || !IsSpace(x[|x| - 1])
    ensures TrimEnd(x + pad) == x
  {
    if pad == [] {
      assert x + pad == x;
    } else {
      var xp := x + pad;
      assert xp[|xp| - 1] == pad[|pad| - 1];
      assert xp[..|xp| - 1] == x + pad[..|pad| - 1];
      TrimEndPadding(x, pad[..|pad| - 1]);
    }
  }

  /** Trimming removes surrounding whitespace from text that has none of its own
      at either end. */
  lemma TrimPadding(before: string, x: string, after: string)
    requires AllSpace(before) && AllSpace(after)
    requires x != [] && !IsSpace(x[0]) && !IsSpace(x[|x| - 1])
    ensures Trim(before + x + after) == x
  {
    assert before + x + after == before + (x + after);
    assert (x + after)[0] == x[0];
    TrimStartPadding(before, x + after);
    TrimEndPadding(x, after);
  }

  /** parseInt reads back a written number, optionally negated, whatever
      non-digit text follows it. */
  lemma ParseIntNumeral(n: nat, tail: string)
    requires tail == [] || !IsDigit(tail[0])
    ensures ParseInt10(Decimal(n) + tail) == Some(n)
    ensures ParseInt10("-" + Decimal(n) + tail) == Some(-(n as int))
  {
    var d := Decimal(n);
    DecimalValue(n);
    ParseIntOfRun(d + tail, d, tail);
    assert (d + tail)[0] == d[0];
    var neg := "-" + d + tail;
    assert neg == ['-'] + (d + tail);
    assert neg[1..] == d + tail;
    ParseIntOfRun(neg, d, tail);
  }

  /** A points cell holding a sign (none, `+` or `-`) and a run of digits,
      padded with whitespace, gives the run's value, negated after `-`. */
  lemma PointsOfDigits(before: string, sign: string, digits: string, after: string)
    requires AllSpace(before) && AllSpace(after)
    requires sign == "" || sign == "+" || sign == "-"
    requires digits != [] && AllDigits(digits)
    ensures Points(before + (sign + digits) + after)
            == Some(if sign == "-" then -(DigitsValue(digits) as int) else DigitsValue(digits) as int)
  {
    var x := sign + digits;
    assert x[|x| - 1] == digits[|digits| - 1];
    assert x[0] == if |sign| == 0 then digits[0] else sign[0];
    TrimPadding(before, x, after);
    ParseIntDigits(sign, digits, []);
    assert sign + digits + [] == x;
  }

  /** A points cell holding a number padded with whitespace gives that number. */
  lemma PointsOfNumeral(n: nat, before: string, after: string)
    requires AllSpace(before) && AllSpace(after)
    ensures Points(before + Decimal(n) + after) == Some(n)
  {
    DecimalValue(n);
    PointsOfDigits(before, "", Decimal(n), after);
    assert "" + Decimal(n) == Decimal(n);
  }

  /** A points cell is NaN exactly when, once trimmed, it is empty, or starts
      with neither a sign nor a digit, or is a sign not followed by a digit. */
  lemma PointsNaN(cellText: string)
    ensures var t := Trim(cellText);
            Points(cellText) == None
            <==> t == []
                 || (t[0] != '+' && t[0] != '-' && !IsDigit(t[0]))
                 || ((t[0] == '+' || t[0] == '-') && (|t| == 1 || !IsDigit(t[1])))
  {
    var t := Trim(cellText);
    if t != [] && (t[0] == '+' || t[0] == '-') {
      assert Unsigned(t) == t[1..];
      if |t| > 1 {
        assert t[1..][0] == t[1];
      }
    }
  }

  // ---------------------------------------------------------------------------
  // date: new Date().toISOString().split("T")[0]

  /** The calendar-date part of an ISO-8601 timestamp: everything before the `T`. */
  function DatePart(timestamp: string): (date: string)
    ensures date <= timestamp && 'T' !in date
    ensures |date| < |timestamp| ==> timestamp[|date|] == 'T'
  {
    Split(timestamp, 'T')[0]
  }

  /** For a timestamp `date + "T" + time`, the date part is `date`. */
  lemma DatePartOfTimestamp(date: string, time: string)
    requires 'T' !in date
    ensures DatePart(date + "T" + time) == date
  {
    SplitFirst(date, 'T', time);
  }
}
