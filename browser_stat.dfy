/**
 * The browser-statistics rollup of `cron/browser_stat.go`: the classifier
 * `getBrowser`, the choice of the window start, and the loop of
 * `updateBrowserStats` that folds pre-counted hourly rows into one group
 * per (day, browser, version). The database reads and writes around the
 * loop are modelled as a fetch function, a delete bound and a set of rows.
 */
module BrowserStat {
  import opened Text
  import opened Decimal
  import opened Helper

  // ---------------------------------------------------------------------------
  // Classifier
  // ---------------------------------------------------------------------------

  /** The device classes of the user-agent parser. */
  datatype DeviceType =
    | DeviceUnknown | DeviceComputer | DeviceTablet | DevicePhone
    | DeviceConsole | DeviceWearable | DeviceTV

  /** What `getBrowser` reads from the parser's result: the bot verdict, the
      browser name with its "Browser" prefix already trimmed, the major and
      minor version numbers and the device class. */
  datatype ParsedUA = ParsedUA(isBot: bool, name: string, major: int, minor: int, deviceType: DeviceType)

  /** The classifier's answer; an empty `name` means "rejected". */
  datatype Browser = Browser(name: string, version: string, mobile: bool)

  /** The version text: the decimal major, then "." and the decimal minor
      only when the minor is positive. */
  function Version(major: int, minor: int): (v: string)
    ensures VersionText(v)
  {
    IntToString(major) + (if minor > 0 then "." + IntToString(minor) else "")
  }

  /** Only digits, minus signs and dots; in particular no space. */
  predicate VersionText(v: string) {
    forall k :: 0 <= k < |v| ==> IsDigit(v[k]) || v[k] == '-' || v[k] == '.'
  }

  /** Splits a version text at its last "." into major and minor; a text
      without "." is a bare major with minor 0. */
  function ParseVersion(v: string): Option<(int, int)> {
    var i := LastIndexOf(v, '.');
    if i < 0 then
      match ParseInt(v)
      case Some(major) => Some((major, 0))
      case None => None
    else
      match (ParseInt(v[..i]), ParseInt(v[i + 1..]))
      case (Some(major), Some(minor)) => Some((major, minor))
      case _ => None
  }

  /** The version always carries the major, carries the minor exactly when
      it is positive, and nothing else (no patch or build part). */
  lemma VersionRoundTrip(major: int, minor: int)
    ensures ParseVersion(Version(major, minor)) == Some((major, if minor > 0 then minor else 0))
    ensures '.' in Version(major, minor) <==> minor > 0
  {
    if minor > 0 {
      VersionWithMinor(major, minor);
    } else {
      var m := IntToString(major);
      assert Version(major, minor) == m;
      ParseIntToString(major);
      NumeralHasNoDot(major);
    }
  }

  lemma NumeralHasNoDot(i: int)
    ensures '.' !in IntToString(i)
  {
    var s := IntToString(i);
    forall k | 0 <= k < |s| ensures s[k] != '.' {
      assert IsDigit(s[k]) || (k == 0 && s[k] == '-');
    }
  }

  /** The positive-minor case of `VersionRoundTrip`, kept apart so that each
      case is proved in a context of its own. */
  lemma VersionWithMinor(major: int, minor: int)
    requires minor > 0
    ensures ParseVersion(Version(major, minor)) == Some((major, minor))
    ensures '.' in Version(major, minor)
  {
    var m, n := IntToString(major), IntToString(minor);
    var v := Version(major, minor);
    assert v == m + ['.'] + n;
    NumeralHasNoDot(major);
    NumeralHasNoDot(minor);
    LastIndexOfSeparator(m, '.', n);
    assert v[..|m|] == m && v[|m| + 1..] == n;
    assert v[|m|] == '.';
    ParseIntToString(major);
    ParseIntToString(minor);
  }

  lemma VersionExamples()
    ensures Version(20, 0) == "20"
    ensures Version(20, 2) == "20.2"
  {
    assert NatToString(20) == "20";
    assert NatToString(2) == "2";
  }

  /** `getBrowser`, applied to the parser's result for the header. */
  function GetBrowser(ua: ParsedUA): Browser {
    if ua.isBot then Browser("", "", false)
    else
      Browser(ua.name, Version(ua.major, ua.minor),
              ua.deviceType == DevicePhone || ua.deviceType == DevicePhone)
  }

  /** A bot gives the empty answer. For anything else the name is the
      parser's, the version reads back as the parser's major and (positive)
      minor, and the mobile flag is exactly "the device is a phone". */
  lemma GetBrowserFields(ua: ParsedUA)
    ensures ua.isBot ==> GetBrowser(ua) == Browser("", "", false)
    ensures !ua.isBot ==> GetBrowser(ua).name == ua.name
    ensures !ua.isBot ==>
      ParseVersion(GetBrowser(ua).version) == Some((ua.major, if ua.minor > 0 then ua.minor else 0))
    ensures !ua.isBot ==> (GetBrowser(ua).mobile <==> ua.deviceType == DevicePhone)
  {
    if !ua.isBot {
      VersionRoundTrip(ua.major, ua.minor);
    }
  }

  // ---------------------------------------------------------------------------
  // Group key
  // ---------------------------------------------------------------------------

  /** The map key of the grouping loop: `day + browser + " " + version`. */
  function GroupKey(day: string, browser: string, version: string): string {
    day + browser + " " + version
  }

  /** With days of one width and versions free of spaces, the key determines
      the triple: the last space of the key separates browser from version. */
  lemma GroupKeyInjective(d1: string, b1: string, v1: string, d2: string, b2: string, v2: string)
    requires |d1| == |d2| && ' ' !in v1 && ' ' !in v2
    ensures GroupKey(d1, b1, v1) == GroupKey(d2, b2, v2) <==> d1 == d2 && b1 == b2 && v1 == v2
  {
    if GroupKey(d1, b1, v1) == GroupKey(d2, b2, v2) {
      var k := GroupKey(d1, b1, v1);
      var x1, x2 := d1 + b1, d2 + b2;
      assert k == x1 + [' '] + v1 && k == x2 + [' '] + v2;
      LastIndexOfSeparator(x1, ' ', v1);
      LastIndexOfSeparator(x2, ' ', v2);
      assert x1 == k[..|x1|] == x2;
      assert v1 == k[|x1| + 1..] == v2;
      assert d1 == x1[..|d1|] && d2 == x2[..|d2|];
      assert b1 == x1[|d1|..] && b2 == x2[|d2|..];
    }
  }

  // ---------------------------------------------------------------------------
  // Window start
  // ---------------------------------------------------------------------------

  const Epoch := Date(1970, 1, 1)

  /** The date the window opens on: the site's last rollup, or the epoch. */
  function WindowDate(lastStat: Option<DateTime>): Date {
    match lastStat
    case None => Epoch
    case Some(t) => t.date
  }

  /** The lower bound passed to both the select and the delete. */
  function WindowStart(lastStat: Option<DateTime>): (since: string)
    ensures since == FormatDate(WindowDate(lastStat))
  {
    if lastStat.None? then "1970-01-01" else FormatDate(lastStat.value.date)
  }

  /** The bound reads back as the window's date, and a date compares with
      it as a string exactly as it compares with the window's date: the
      boundary day itself is inside the window. */
  lemma WindowStartBoundary(lastStat: Option<DateTime>, d: Date)
    requires InLayoutRange(WindowDate(lastStat)) && InLayoutRange(d)
    ensures |WindowStart(lastStat)| == 10
    ensures ParseDate(WindowStart(lastStat)) == Some(WindowDate(lastStat))
    ensures LexLess(FormatDate(d), WindowStart(lastStat)) <==> DateBefore(d, WindowDate(lastStat))
  {
    FormatDateShape(WindowDate(lastStat));
    ParseFormattedDate(WindowDate(lastStat), "");
    assert WindowStart(lastStat) + "" == WindowStart(lastStat);
    FormatDateOrder(d, WindowDate(lastStat));
  }

  // ---------------------------------------------------------------------------
  // Aggregation
  // ---------------------------------------------------------------------------

  /** One row of the select: a raw user-agent header, how many hits had it
      in one hour, and that hour. */
  datatype BStat = BStat(browser: string, count: int, createdAt: DateTime)

  /** A selected row as the grouping loop sees it once classified: its day in
      the layout "2006-01-02", the classifier's answer and its count. */
  datatype Row = Row(day: string, browser: Browser, count: int)

  /** The first statements of the loop body: classify the header, format the day. */
  function RowOf(parse: string -> ParsedUA, s: BStat): Row {
    Row(FormatDate(s.createdAt.date), GetBrowser(parse(s.browser)), s.count)
  }

  /** The selected rows, each classified, in the order of the select. */
  function Rows(parse: string -> ParsedUA, stats: seq<BStat>): (rows: seq<Row>)
    ensures |rows| == |stats|
    decreases |stats|
  {
    if stats == [] then []
    else Rows(parse, stats[..|stats| - 1]) + [RowOf(parse, stats[|stats| - 1])]
  }

  /** Row `i` is the classification of selected row `i`. */
  lemma {:induction false} RowsAt(parse: string -> ParsedUA, stats: seq<BStat>, i: nat)
    requires i < |stats|
    ensures Rows(parse, stats)[i] == RowOf(parse, stats[i])
    decreases |stats|
  {
    if i < |stats| - 1 {
      var p := stats[..|stats| - 1];
      RowsAt(parse, p, i);
      assert p[i] == stats[i];
    }
  }

  lemma RowsSnoc(parse: string -> ParsedUA, stats: seq<BStat>, i: nat)
    requires i < |stats|
    ensures Rows(parse, stats[..i + 1]) == Rows(parse, stats[..i]) + [RowOf(parse, stats[i])]
  {
    assert stats[..i + 1][..i] == stats[..i];
  }

  /** One accumulator of the grouping map (the `gt` struct). */
  datatype Group = Group(count: int, mobile: bool, day: string, browser: string, version: string)

  /** Go's zero value of `gt`, which a lookup of a missing key yields. */
  const ZeroGroup := Group(0, false, "", "", "")

  /** The classifier kept the row (the loop does not `continue`). */
  predicate Accepted(r: Row) {
    r.browser.name != ""
  }

  function Key(r: Row): string {
    GroupKey(r.day, r.browser.name, r.browser.version)
  }

  /** One iteration of the grouping loop. */
  function Step(grouped: map<string, Group>, r: Row): map<string, Group> {
    if r.browser.name == "" then grouped
    else
      var k := Key(r);
      var v' := Fill(if k in grouped then grouped[k] else ZeroGroup, r);
      grouped[k := v'.(count := v'.count + r.count)]
  }

  /** A group that has counted nothing yet (`v.count == 0`) takes its day,
      browser, version and mobile flag from the row; any other is kept. */
  function Fill(v: Group, r: Row): Group {
    if v.count == 0
    then v.(day := r.day, browser := r.browser.name, version := r.browser.version,
            mobile := r.browser.mobile)
    else v
  }

  /** The grouping map after the loop has consumed `rows` in order. */
  function Aggregate(rows: seq<Row>): map<string, Group>
    decreases |rows|
  {
    if rows == [] then map[]
    else Step(Aggregate(rows[..|rows| - 1]), rows[|rows| - 1])
  }

  /** Reference definition: the total count of the accepted rows with key `k`. */
  function SumFor(rows: seq<Row>, k: string): int
    decreases |rows|
  {
    if rows == [] then 0
    else
      SumFor(rows[..|rows| - 1], k) + Contribution(rows[|rows| - 1], k)
  }

  /** What one row adds to the total of key `k`. */
  function Contribution(r: Row, k: string): int {
    if Accepted(r) && Key(r) == k then r.count else 0
  }

  /** Reference definition: the total count of all accepted rows. */
  function TotalAccepted(rows: seq<Row>): int
    decreases |rows|
  {
    if rows == [] then 0
    else
      var r := rows[|rows| - 1];
      TotalAccepted(rows[..|rows| - 1]) + (if Accepted(r) then r.count else 0)
  }

  /** The sum of the counts held by a grouping map. */
  ghost function MapTotal(m: map<string, Group>): int
    decreases |m|
  {
    if m == map[] then 0
    else
      var k :| k in m;
      m[k].count + MapTotal(m - {k})
  }

  /** The rows the classifier accepts, in their original order. */
  function AcceptedOnly(rows: seq<Row>): (r: seq<Row>)
    ensures forall i :: 0 <= i < |r| ==> Accepted(r[i])
    decreases |rows|
  {
    if rows == [] then []
    else
      var x := rows[|rows| - 1];
      AcceptedOnly(rows[..|rows| - 1]) + (if Accepted(x) then [x] else [])
  }

  /** Some accepted row has key `k`. */
  ghost predicate HasKey(rows: seq<Row>, k: string) {
    exists i :: 0 <= i < |rows| && Accepted(rows[i]) && Key(rows[i]) == k
  }

  lemma HasKeyLast(rows: seq<Row>, k: string)
    requires rows != []
    ensures HasKey(rows, k) <==>
      HasKey(rows[..|rows| - 1], k) || (Accepted(rows[|rows| - 1]) && Key(rows[|rows| - 1]) == k)
  {
    var p := rows[..|rows| - 1];
    if HasKey(p, k) {
      var i :| 0 <= i < |p| && Accepted(p[i]) && Key(p[i]) == k;
      assert rows[i] == p[i];
    }
    if HasKey(rows, k) {
      var i :| 0 <= i < |rows| && Accepted(rows[i]) && Key(rows[i]) == k;
      if i < |p| {
        assert p[i] == rows[i];
        assert HasKey(p, k);
      } else {
        assert i == |rows| - 1;
      }
    }
  }

  /** A step adds the row's key when the row is accepted, and no other key. */
  lemma StepKeys(m: map<string, Group>, r: Row)
    ensures Step(m, r).Keys == if Accepted(r) then m.Keys + {Key(r)} else m.Keys
  {
  }

  /** A group exists for `k` exactly when some accepted row has key `k`. */
  lemma {:induction false} AggregateKeys(rows: seq<Row>)
    ensures forall k :: k in Aggregate(rows) <==> HasKey(rows, k)
    decreases |rows|
  {
    if rows != [] {
      var p, r := rows[..|rows| - 1], rows[|rows| - 1];
      AggregateKeys(p);
      StepKeys(Aggregate(p), r);
      forall k ensures k in Aggregate(rows) <==> HasKey(rows, k) {
        HasKeyLast(rows, k);
      }
    }
  }

  /** Every group's count is the total count of the accepted rows with its
      key; a key without a group has no accepted rows to its name. */
  lemma {:induction false} AggregateCounts(rows: seq<Row>)
    ensures forall k ::
      (SumFor(rows, k) == if k in Aggregate(rows) then Aggregate(rows)[k].count else 0)
    decreases |rows|
  {
    if rows != [] {
      AggregateCounts(rows[..|rows| - 1]);
    }
  }

  /** Some accepted row with the group's key supplied its day, browser and version. */
  ghost predicate FieldsFrom(rows: seq<Row>, k: string, g: Group) {
    exists i :: 0 <= i < |rows| && Accepted(rows[i]) && Key(rows[i]) == k
      && g.day == rows[i].day && g.browser == rows[i].browser.name
      && g.version == rows[i].browser.version
  }

  lemma {:induction false} AggregateFields(rows: seq<Row>)
    ensures forall k :: k in Aggregate(rows) ==> FieldsFrom(rows, k, Aggregate(rows)[k])
    decreases |rows|
  {
    if rows != [] {
      var p, r := rows[..|rows| - 1], rows[|rows| - 1];
      AggregateFields(p);
      var a, a' := Aggregate(p), Aggregate(rows);
      forall k | k in a'
        ensures FieldsFrom(rows, k, a'[k])
      {
        if Accepted(r) && k == Key(r) && (k !in a || a[k].count == 0) {
          assert rows[|rows| - 1] == r;
        } else {
          assert k in a && a'[k].day == a[k].day && a'[k].browser == a[k].browser
            && a'[k].version == a[k].version;
          var i :| 0 <= i < |p| && Accepted(p[i]) && Key(p[i]) == k
            && a[k].day == p[i].day && a[k].browser == p[i].browser.name
            && a[k].version == p[i].browser.version;
          assert rows[i] == p[i];
        }
      }
    }
  }

  /** Each key is the key of its own group's fields, so no two groups share
      a (day, browser, version). */
  lemma GroupsAreUnique(rows: seq<Row>)
    ensures forall k :: k in Aggregate(rows) ==>
      (var g := Aggregate(rows)[k]; k == GroupKey(g.day, g.browser, g.version))
    ensures forall k1, k2 ::
      (k1 in Aggregate(rows) && k2 in Aggregate(rows)
       && Aggregate(rows)[k1].day == Aggregate(rows)[k2].day
       && Aggregate(rows)[k1].browser == Aggregate(rows)[k2].browser
       && Aggregate(rows)[k1].version == Aggregate(rows)[k2].version)
      ==> k1 == k2
  {
    AggregateFields(rows);
  }

  /** An accepted header's version never holds a space. */
  lemma AcceptedVersionHasNoSpace(ua: ParsedUA)
    requires GetBrowser(ua).name != ""
    ensures ' ' !in GetBrowser(ua).version
  {
    assert !ua.isBot;
    assert GetBrowser(ua).version == Version(ua.major, ua.minor);
  }

  /** Days of the layout's ten characters, and accepted versions without a space. */
  predicate WellFormedRows(rows: seq<Row>) {
    forall i :: 0 <= i < |rows| ==>
      |rows[i].day| == 10 && (Accepted(rows[i]) ==> ' ' !in rows[i].browser.version)
  }

  /** Rows classified from a select whose dates are valid with years below 10000 are well formed. */
  lemma RowsWellFormed(parse: string -> ParsedUA, stats: seq<BStat>)
    requires forall i :: 0 <= i < |stats| ==> InLayoutRange(stats[i].createdAt.date)
    ensures WellFormedRows(Rows(parse, stats))
  {
    var rows := Rows(parse, stats);
    forall i | 0 <= i < |rows|
      ensures |rows[i].day| == 10 && (Accepted(rows[i]) ==> ' ' !in rows[i].browser.version)
    {
      RowsAt(parse, stats, i);
      RowWellFormed(parse, stats[i]);
    }
  }

  lemma RowWellFormed(parse: string -> ParsedUA, s: BStat)
    requires InLayoutRange(s.createdAt.date)
    ensures |RowOf(parse, s).day| == 10
    ensures Accepted(RowOf(parse, s)) ==> ' ' !in RowOf(parse, s).browser.version
  {
    FormatDateShape(s.createdAt.date);
    if Accepted(RowOf(parse, s)) {
      AcceptedVersionHasNoSpace(parse(s.browser));
    }
  }

  /** For well-formed rows a group collects exactly the accepted rows of its
      own (day, browser, version): different triples never share a key. */
  lemma GroupsCollectTheirTriple(rows: seq<Row>)
    requires WellFormedRows(rows)
    ensures forall k, i :: k in Aggregate(rows) && 0 <= i < |rows| && Accepted(rows[i]) ==>
      (Key(rows[i]) == k <==>
         rows[i].day == Aggregate(rows)[k].day
         && rows[i].browser.name == Aggregate(rows)[k].browser
         && rows[i].browser.version == Aggregate(rows)[k].version)
  {
    var a := Aggregate(rows);
    AggregateFields(rows);
    forall k, i | k in a && 0 <= i < |rows| && Accepted(rows[i])
      ensures Key(rows[i]) == k <==>
         rows[i].day == a[k].day && rows[i].browser.name == a[k].browser
         && rows[i].browser.version == a[k].version
    {
      var j :| 0 <= j < |rows| && Accepted(rows[j]) && Key(rows[j]) == k
        && a[k].day == rows[j].day && a[k].browser == rows[j].browser.name
        && a[k].version == rows[j].browser.version;
      var x, y := rows[i], rows[j];
      GroupKeyInjective(x.day, x.browser.name, x.browser.version,
                        y.day, y.browser.name, y.browser.version);
    }
  }

  lemma {:induction false} MapTotalRemove(m: map<string, Group>, k: string)
    requires k in m
    ensures MapTotal(m) == m[k].count + MapTotal(m - {k})
    decreases |m|
  {
    var k' :| k' in m && MapTotal(m) == m[k'].count + MapTotal(m - {k'});
    if k' != k {
      MapTotalRemove(m - {k'}, k);
      MapTotalRemove(m - {k}, k');
      assert (m - {k'}) - {k} == (m - {k}) - {k'};
    }
  }

  lemma MapTotalStep(m: map<string, Group>, r: Row)
    ensures MapTotal(Step(m, r)) == MapTotal(m) + (if Accepted(r) then r.count else 0)
  {
    if Accepted(r) {
      var k, m' := Key(r), Step(m, r);
      MapTotalRemove(m', k);
      if k in m {
        MapTotalRemove(m, k);
        assert m' - {k} == m - {k};
      } else {
        assert m' - {k} == m;
      }
    }
  }

  /** Conservation: the groups together hold exactly the accepted rows' counts. */
  lemma {:induction false} AggregateConservesCounts(rows: seq<Row>)
    ensures MapTotal(Aggregate(rows)) == TotalAccepted(rows)
    decreases |rows|
  {
    if rows != [] {
      AggregateConservesCounts(rows[..|rows| - 1]);
      MapTotalStep(Aggregate(rows[..|rows| - 1]), rows[|rows| - 1]);
    }
  }

  /** Dropping the rejected rows (bots, nameless browsers) beforehand changes nothing. */
  lemma {:induction false} RejectedRowsIgnored(rows: seq<Row>)
    ensures Aggregate(rows) == Aggregate(AcceptedOnly(rows))
    decreases |rows|
  {
    if rows != [] {
      var p, r := rows[..|rows| - 1], rows[|rows| - 1];
      RejectedRowsIgnored(p);
      var q := AcceptedOnly(p);
      if Accepted(r) {
        assert AcceptedOnly(rows) == q + [r];
        assert (q + [r])[..|q|] == q;
      } else {
        assert AcceptedOnly(rows) == q;
      }
    }
  }

  /** A row whose header the parser calls a bot leaves the grouping map as it was. */
  lemma BotRowContributesNothing(parse: string -> ParsedUA, stats: seq<BStat>, s: BStat)
    requires parse(s.browser).isBot
    ensures Aggregate(Rows(parse, stats + [s])) == Aggregate(Rows(parse, stats))
  {
    assert (stats + [s])[..|stats|] == stats;
    AggregateSnoc(Rows(parse, stats), RowOf(parse, s));
  }

  lemma AggregateSnoc(rows: seq<Row>, r: Row)
    ensures Aggregate(rows + [r]) == Step(Aggregate(rows), r)
  {
    assert (rows + [r])[..|rows|] == rows;
  }

  /** The prefix of the first `n` rows is consumed before row `n`. */
  lemma AggregatePrefix(rows: seq<Row>, n: nat)
    requires n < |rows|
    ensures Aggregate(rows[..n + 1]) == Step(Aggregate(rows[..n]), rows[n])
  {
    assert rows[..n + 1][..n] == rows[..n];
  }

  /** No accepted row before row `i` shares its key. */
  ghost predicate FirstOfKey(rows: seq<Row>, i: nat)
    requires i < |rows|
  {
    forall j :: 0 <= j < i && Accepted(rows[j]) ==> Key(rows[j]) != Key(rows[i])
  }

  /** The fields the classified row `r` gives a fresh group. */
  predicate TakesFieldsOf(g: Group, r: Row) {
    g.day == r.day && g.browser == r.browser.name && g.version == r.browser.version
    && g.mobile == r.browser.mobile
  }

  lemma {:induction false} FirstContributionUpTo(rows: seq<Row>, i: nat, n: nat)
    requires forall j :: 0 <= j < |rows| ==> rows[j].count > 0
    requires i < n <= |rows| && Accepted(rows[i]) && FirstOfKey(rows, i)
    ensures Key(rows[i]) in Aggregate(rows[..n])
    ensures Aggregate(rows[..n])[Key(rows[i])].count > 0
    ensures TakesFieldsOf(Aggregate(rows[..n])[Key(rows[i])], rows[i])
    decreases n
  {
    var k := Key(rows[i]);
    if n == i + 1 {
      AggregateKeys(rows[..i]);
      forall j | 0 <= j < i
        ensures !(Accepted(rows[..i][j]) && Key(rows[..i][j]) == k)
      {
        assert rows[..i][j] == rows[j];
      }
      assert !HasKey(rows[..i], k);
      AggregatePrefix(rows, i);
    } else {
      FirstContributionUpTo(rows, i, n - 1);
      AggregatePrefix(rows, n - 1);
    }
  }

  /** With positive counts, a group keeps the day, browser, version and
      mobile flag of the first row that reached it; later rows only add to
      its count. */
  lemma FirstContributionWins(rows: seq<Row>, i: nat)
    requires forall j :: 0 <= j < |rows| ==> rows[j].count > 0
    requires i < |rows| && Accepted(rows[i]) && FirstOfKey(rows, i)
    ensures Key(rows[i]) in Aggregate(rows)
    ensures TakesFieldsOf(Aggregate(rows)[Key(rows[i])], rows[i])
  {
    FirstContributionUpTo(rows, i, |rows|);
    assert rows[..|rows|] == rows;
  }

  lemma {:induction false} SumForConcat(u: seq<Row>, v: seq<Row>, k: string)
    ensures SumFor(u + v, k) == SumFor(u, k) + SumFor(v, k)
    decreases |v|
  {
    if v == [] {
      assert u + v == u;
    } else {
      assert (u + v)[..|u + v| - 1] == u + v[..|v| - 1];
      SumForConcat(u, v[..|v| - 1], k);
    }
  }

  lemma {:induction false} SumForPermutation(a: seq<Row>, b: seq<Row>, k: string)
    requires multiset(a) == multiset(b)
    ensures SumFor(a, k) == SumFor(b, k)
    decreases |a|
  {
    if a == [] {
      assert |b| == |multiset(b)| == 0;
    } else {
      var a', x := a[..|a| - 1], a[|a| - 1];
      assert a == a' + [x];
      assert multiset(a) == multiset(a') + multiset{x};
      assert x in multiset(b);
      var j :| 0 <= j < |b| && b[j] == x;
      var rest := b[..j] + b[j + 1..];
      MultisetRemove(b, j);
      SumForPermutation(a', rest, k);
      SumForRemove(b, j, k);
    }
  }

  lemma SplitAt<T>(b: seq<T>, j: nat)
    requires j < |b|
    ensures b == (b[..j] + [b[j]]) + b[j + 1..]
  {
  }

  lemma MultisetRemove<T>(b: seq<T>, j: nat)
    requires j < |b|
    ensures multiset(b[..j] + b[j + 1..]) == multiset(b) - multiset{b[j]}
  {
    SplitAt(b, j);
    assert multiset(b) == multiset(b[..j]) + multiset{b[j]} + multiset(b[j + 1..]);
  }

  lemma SumForRemove(b: seq<Row>, j: nat, k: string)
    requires j < |b|
    ensures SumFor(b, k) == SumFor(b[..j] + b[j + 1..], k) + Contribution(b[j], k)
  {
    var b1, x, b2 := b[..j], b[j], b[j + 1..];
    SplitAt(b, j);
    SumForConcat(b1 + [x], b2, k);
    SumForConcat(b1, [x], k);
    SumForConcat(b1, b2, k);
    assert [x][..0] == [];
  }

  /** The order of the rows does not change which groups exist nor their counts. */
  lemma AggregatePermutation(s1: seq<Row>, s2: seq<Row>)
    requires multiset(s1) == multiset(s2)
    ensures Aggregate(s1).Keys == Aggregate(s2).Keys
    ensures forall k :: k in Aggregate(s1) ==> Aggregate(s1)[k].count == Aggregate(s2)[k].count
  {
    AggregateCounts(s1);
    AggregateCounts(s2);
    AggregateKeys(s1);
    AggregateKeys(s2);
    forall k ensures HasKey(s1, k) <==> HasKey(s2, k) {
      HasKeyPermutation(s1, s2, k);
      HasKeyPermutation(s2, s1, k);
    }
    forall k ensures SumFor(s1, k) == SumFor(s2, k) {
      SumForPermutation(s1, s2, k);
    }
  }

  lemma HasKeyPermutation(s1: seq<Row>, s2: seq<Row>, k: string)
    requires multiset(s1) == multiset(s2)
    ensures HasKey(s1, k) ==> HasKey(s2, k)
  {
    if HasKey(s1, k) {
      var i :| 0 <= i < |s1| && Accepted(s1[i]) && Key(s1[i]) == k;
      assert s1[i] in multiset(s2);
      var j :| 0 <= j < |s2| && s2[j] == s1[i];
    }
  }

  lemma {:induction false} RowsConcat(parse: string -> ParsedUA, a: seq<BStat>, b: seq<BStat>)
    ensures Rows(parse, a + b) == Rows(parse, a) + Rows(parse, b)
    decreases |b|
  {
    if b == [] {
      assert a + b == a;
    } else {
      assert (a + b)[..|a + b| - 1] == a + b[..|b| - 1];
      RowsConcat(parse, a, b[..|b| - 1]);
    }
  }

  /** Reordering the selected rows reorders their classifications alike. */
  lemma {:induction false} RowsPermutation(parse: string -> ParsedUA, s1: seq<BStat>, s2: seq<BStat>)
    requires multiset(s1) == multiset(s2)
    ensures multiset(Rows(parse, s1)) == multiset(Rows(parse, s2))
    decreases |s1|
  {
    if s1 == [] {
      assert |s2| == |multiset(s2)| == 0;
    } else {
      var p, x := s1[..|s1| - 1], s1[|s1| - 1];
      assert s1 == p + [x];
      assert multiset(s1) == multiset(p) + multiset{x};
      assert x in multiset(s2);
      var j :| 0 <= j < |s2| && s2[j] == x;
      MultisetRemove(s2, j);
      RowsPermutation(parse, p, s2[..j] + s2[j + 1..]);
      RowsRemove(parse, s2, j);
    }
  }

  /** Taking row `j` out of the select takes its classification out of the rows. */
  lemma RowsRemove(parse: string -> ParsedUA, s: seq<BStat>, j: nat)
    requires j < |s|
    ensures multiset(Rows(parse, s))
      == multiset(Rows(parse, s[..j] + s[j + 1..])) + multiset{RowOf(parse, s[j])}
  {
    var b1, x, b2 := s[..j], s[j], s[j + 1..];
    SplitAt(s, j);
    RowsConcat(parse, b1 + [x], b2);
    RowsConcat(parse, b1, [x]);
    RowsConcat(parse, b1, b2);
    assert [x][..0] == [];
    var r1, r2 := Rows(parse, b1), Rows(parse, b2);
    assert Rows(parse, s) == r1 + [RowOf(parse, x)] + r2;
  }

  /** The order in which the select returns its rows changes neither which
      groups exist nor their counts. */
  lemma SelectOrderIrrelevant(parse: string -> ParsedUA, s1: seq<BStat>, s2: seq<BStat>)
    requires multiset(s1) == multiset(s2)
    ensures Aggregate(Rows(parse, s1)).Keys == Aggregate(Rows(parse, s2)).Keys
    ensures forall k :: k in Aggregate(Rows(parse, s1)) ==>
      Aggregate(Rows(parse, s1))[k].count == Aggregate(Rows(parse, s2))[k].count
  {
    RowsPermutation(parse, s1, s2);
    AggregatePermutation(Rows(parse, s1), Rows(parse, s2));
  }

  /** An accepted row overwrites its own key with `v` plus its count, where
      `v` is the current group, or a fresh one filled from the row. */
  lemma StepWrites(m: map<string, Group>, r: Row, k: string, v: Group)
    requires Accepted(r) && k == Key(r)
    requires v == Fill(if k in m then m[k] else ZeroGroup, r)
    ensures Step(m, r) == m[k := v.(count := v.count + r.count)]
  {
  }

  /** One pass of the grouping loop's body: classify the row, skip it when
      rejected, otherwise fill a fresh group from it and add its count. */
  method AddRow(parse: string -> ParsedUA, grouped: map<string, Group>, s: BStat)
    returns (next: map<string, Group>)
    ensures next == Step(grouped, RowOf(parse, s))
  {
    var b := GetBrowser(parse(s.browser));
    if b.name == "" {
      return grouped;
    }
    var day := FormatDate(s.createdAt.date);
    var k := GroupKey(day, b.name, b.version);
    var v := if k in grouped then grouped[k] else ZeroGroup;
    if v.count == 0 {
      v := v.(day := day, browser := b.name, version := b.version, mobile := b.mobile);
    }
    assert RowOf(parse, s) == Row(day, b, s.count);
    StepWrites(grouped, Row(day, b, s.count), k, v);
    v := v.(count := v.count + s.count);
    next := grouped[k := v];
  }

  /** The grouping loop of `updateBrowserStats`. */
  method GroupStats(parse: string -> ParsedUA, stats: seq<BStat>) returns (grouped: map<string, Group>)
    ensures grouped == Aggregate(Rows(parse, stats))
    ensures forall k :: k in grouped <==> HasKey(Rows(parse, stats), k)
    ensures forall k :: k in grouped ==> grouped[k].count == SumFor(Rows(parse, stats), k)
    ensures MapTotal(grouped) == TotalAccepted(Rows(parse, stats))
  {
    grouped := map[];
    assert stats[..0] == [];
    for i := 0 to |stats|
      invariant grouped == Aggregate(Rows(parse, stats[..i]))
    {
      RowsSnoc(parse, stats, i);
      AggregateSnoc(Rows(parse, stats[..i]), RowOf(parse, stats[i]));
      grouped := AddRow(parse, grouped, stats[i]);
    }
    assert stats[..|stats|] == stats;
    ghost var rows := Rows(parse, stats);
    AggregateKeys(rows);
    AggregateCounts(rows);
    AggregateConservesCounts(rows);
  }

  // ---------------------------------------------------------------------------
  // One run: read, delete, insert
  // ---------------------------------------------------------------------------

  /** What a run sends to the aggregate store: delete this site's rows with
      `day >= deleteFrom`, then insert `rows`. */
  datatype Replacement = Replacement(deleteFrom: string, rows: set<Group>)

  datatype RunError = FetchData

  datatype RunResult = Replaced(replacement: Replacement) | Failed(error: RunError)

  /** `updateBrowserStats` for one site. `fetch(since)` stands for the select
      with lower bound `since` (None when the query fails); `parse` for the
      user-agent parser. */
  method UpdateBrowserStats(lastStat: Option<DateTime>, fetch: string -> Option<seq<BStat>>,
                            parse: string -> ParsedUA) returns (r: RunResult)
    ensures r.Failed? <==> fetch(WindowStart(lastStat)).None?
    ensures r.Replaced? ==>
      r.replacement.deleteFrom == WindowStart(lastStat)
      && r.replacement.rows == Aggregate(Rows(parse, fetch(WindowStart(lastStat)).value)).Values
  {
    var last := WindowStart(lastStat);
    var fetched := fetch(last);
    if fetched.None? {
      return Failed(FetchData);
    }
    var grouped := GroupStats(parse, fetched.value);
    var rows := InsertedRows(grouped);
    return Replaced(Replacement(last, rows));
  }

  /** The loop feeding the bulk insert: one row per group. */
  method InsertedRows(grouped: map<string, Group>) returns (rows: set<Group>)
    ensures rows == grouped.Values
  {
    rows := {};
    var todo := grouped.Keys;
    while todo != {}
      invariant todo <= grouped.Keys
      invariant rows == set k | k in grouped.Keys - todo :: grouped[k]
      decreases |todo|
    {
      var k :| k in todo;
      rows := rows + {grouped[k]};
      todo := todo - {k};
    }
    assert grouped.Keys - todo == grouped.Keys;
  }

  /** The site's rows of the aggregate store after a replacement. */
  function ApplyReplacement(table: set<Group>, rep: Replacement): set<Group> {
    (set g | g in table && LexLess(g.day, rep.deleteFrom)) + rep.rows
  }

  /** Rows whose dates are not before the window date have days that do not
      sort before the window start. */
  lemma FetchedRowsInsideWindow(parse: string -> ParsedUA, stats: seq<BStat>, lastStat: Option<DateTime>)
    requires InLayoutRange(WindowDate(lastStat))
    requires forall i :: 0 <= i < |stats| ==>
      InLayoutRange(stats[i].createdAt.date) && !DateBefore(stats[i].createdAt.date, WindowDate(lastStat))
    ensures forall i :: 0 <= i < |stats| ==> !LexLess(Rows(parse, stats)[i].day, WindowStart(lastStat))
  {
    forall i | 0 <= i < |stats| ensures !LexLess(Rows(parse, stats)[i].day, WindowStart(lastStat)) {
      RowsAt(parse, stats, i);
      WindowStartBoundary(lastStat, stats[i].createdAt.date);
    }
  }

  /** When the rows lie inside the window, so does every group. */
  lemma GroupsInsideWindow(rows: seq<Row>, since: string)
    requires forall i :: 0 <= i < |rows| ==> !LexLess(rows[i].day, since)
    ensures forall g :: g in Aggregate(rows).Values ==> !LexLess(g.day, since)
  {
    AggregateFields(rows);
    forall g | g in Aggregate(rows).Values ensures !LexLess(g.day, since) {
      var k :| k in Aggregate(rows) && Aggregate(rows)[k] == g;
    }
  }

  /** A run leaves the rows before the window as they were and makes the
      window hold exactly the new groups. */
  lemma ReplacementReplacesWindow(table: set<Group>, rows: seq<Row>, since: string)
    requires forall i :: 0 <= i < |rows| ==> !LexLess(rows[i].day, since)
    ensures var after := ApplyReplacement(table, Replacement(since, Aggregate(rows).Values));
      (forall g :: g in after && LexLess(g.day, since) <==> g in table && LexLess(g.day, since))
      && (forall g :: g in after && !LexLess(g.day, since) <==> g in Aggregate(rows).Values)
  {
    GroupsInsideWindow(rows, since);
  }

  /** Running the same replacement twice leaves the store as running it
      once, for any store and any replacement: the delete removes what the
      first insert added and the second insert puts it back. */
  lemma ReplacementIsIdempotent(table: set<Group>, rep: Replacement)
    ensures ApplyReplacement(ApplyReplacement(table, rep), rep) == ApplyReplacement(table, rep)
  {
  }
}
