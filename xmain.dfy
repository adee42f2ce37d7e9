/** The run assembly of src/x_main.ts: the HTML clean-up before XML parsing,
    the choice of tables on the result page, one run over the courts (restore
    the previous snapshot, compare, store the new one), the notification text
    and the decision what to send. Fetching the page, parsing XML and sending
    to Slack are parameters or left out. */
module XMain {
  import opened Results
  import opened Text
  import opened HtmlParser
  import opened Calendars

  // ---------------------------------------------------------------------------
  // normalizeHtml

  /** One of the six patterns `normalizeHtml` removes globally and without
      regard to ASCII case: a tag `<name[^>]*>`, or a plain word. */
  datatype Removal = Tag(name: string) | Word(text: string)

  const Removals: seq<Removal> :=
    [Tag("meta"), Tag("link"), Tag("img"), Tag("br"), Tag("input"), Word("nowrap")]

  function LowerAscii(c: char): char {
    if 'A' <= c <= 'Z' then (c as int + 32) as char else c
  }

  /** What the `i` flag compares without the `u` flag for a pattern of ASCII
      lower-case letters: only ASCII letters have another case that matches. */
  predicate SameIgnoringCase(x: string, pattern: string) {
    |x| == |pattern| && forall k :: 0 <= k < |x| ==> LowerAscii(x[k]) == pattern[k]
  }

  /** The first `c` at or after `i`. */
  function FindFrom(s: string, c: char, i: nat): (r: Option<nat>)
    requires i <= |s|
    ensures r.Some? ==> i <= r.value < |s| && s[r.value] == c
    ensures r.None? ==> forall k :: i <= k < |s| ==> s[k] != c
    decreases |s| - i
  {
    if i == |s| then None else if s[i] == c then Some(i) else FindFrom(s, c, i + 1)
  }

  /** The end of the match of `r` starting at `p`, if any. For a tag the greedy
      `[^>]*` runs to the first `>`, which then closes the match; with no `>`
      left there is no match. */
  function MatchEnd(s: string, r: Removal, p: nat): (e: Option<nat>)
    requires p <= |s|
    ensures e.Some? ==> p < e.value <= |s|
  {
    match r
    case Tag(name) =>
      var q := p + 1 + |name|;
      if q <= |s| && s[p] == '<' && SameIgnoringCase(s[p + 1..q], name) then
        match FindFrom(s, '>', q)
        case None => None
        case Some(j) => Some(j + 1)
      else None
    case Word(w) =>
      if |w| > 0 && p + |w| <= |s| && SameIgnoringCase(s[p..p + |w|], w) then Some(p + |w|) else None
  }

  /** `s.replace(pattern, '')` from index `p` on: each match is dropped and the
      search resumes behind it; elsewhere one character is kept. */
  function StripFrom(s: string, r: Removal, p: nat): (t: string)
    requires p <= |s|
    ensures |t| <= |s| - p
    decreases |s| - p
  {
    if p == |s| then ""
    else
      match MatchEnd(s, r, p)
      case None => [s[p]] + StripFrom(s, r, p + 1)
      case Some(e) => StripFrom(s, r, e)
  }

  function Strip(s: string, r: Removal): string {
    StripFrom(s, r, 0)
  }

  /** The pattern matches nowhere in `s`. */
  predicate Absent(s: string, r: Removal) {
    forall i :: 0 <= i < |s| ==> MatchEnd(s, r, i).None?
  }

  /** The removals applied one after another, in list order. */
  function ApplyAll(s: string, rs: seq<Removal>): string {
    if rs == [] then s else Strip(ApplyAll(s, rs[..|rs| - 1]), rs[|rs| - 1])
  }

  /** The cleaned-up page `getCalendarInfo` hands to the XML parser. */
  function NormalizedHtml(html: string): string {
    ApplyAll(html, Removals)
  }

  lemma {:induction false} StripWithoutMatch(s: string, r: Removal, p: nat)
    requires p <= |s|
    requires forall i :: p <= i < |s| ==> MatchEnd(s, r, i).None?
    ensures StripFrom(s, r, p) == s[p..]
    decreases |s| - p
  {
    if p < |s| {
      StripWithoutMatch(s, r, p + 1);
      assert s[p..] == [s[p]] + s[p + 1..];
    }
  }

  /** Removing never lengthens the text. */
  lemma {:induction false} ApplyAllShorter(s: string, rs: seq<Removal>)
    ensures |ApplyAll(s, rs)| <= |s|
  {
    if rs != [] {
      ApplyAllShorter(s, rs[..|rs| - 1]);
    }
  }

  /** Text in which no pattern occurs comes back unchanged. */
  lemma {:induction false} ApplyAllWithoutMatch(s: string, rs: seq<Removal>)
    requires forall k :: 0 <= k < |rs| ==> Absent(s, rs[k])
    ensures ApplyAll(s, rs) == s
  {
    if rs != [] {
      ApplyAllWithoutMatch(s, rs[..|rs| - 1]);
      StripWithoutMatch(s, rs[|rs| - 1], 0);
    }
  }

  /** `normalizeHtml(html)`: the `forEach` that reassigns `html` once per
      pattern. The result is never longer than the input, and is the input
      when none of the six patterns occurs in it. */
  method NormalizeHtml(html: string) returns (r: string)
    ensures r == NormalizedHtml(html)
    ensures |r| <= |html|
    ensures (forall k :: 0 <= k < |Removals| ==> Absent(html, Removals[k])) ==> r == html
  {
    r := html;
    for k := 0 to |Removals|
      invariant r == ApplyAll(html, Removals[..k])
    {
      assert Removals[..k + 1][..k] == Removals[..k];
      r := Strip(r, Removals[k]);
    }
    assert Removals[..|Removals|] == Removals;
    ApplyAllShorter(html, Removals);
    if forall k :: 0 <= k < |Removals| ==> Absent(html, Removals[k]) {
      ApplyAllWithoutMatch(html, Removals);
    }
  }

  // ---------------------------------------------------------------------------
  // parseDates and getCalendarInfo

  const RowQuery: ParserQuery := ParserQuery("tr", None, None)
  const TableQuery: ParserQuery := ParserQuery("table", Some("tcontent"), None)

  /** `parseDates(table)`: the trimmed texts of the `tr` elements found in
      pre-order, without the first (the year row). */
  function ParseDates(table: Element): (dates: seq<string>)
    ensures var rows := Matches(table, RowQuery);
      |dates| == (if |rows| == 0 then 0 else |rows| - 1)
      && forall k :: 0 <= k < |dates| ==> dates[k] == Trim(TextValue(rows[k + 1]))
  {
    var rows := Matches(table, RowQuery);
    var n := if |rows| == 0 then 0 else |rows| - 1;
    seq(n, k requires 0 <= k < n => Trim(TextValue(rows[k + 1])))
  }

  /** Every date is the trimmed text of a `tr` somewhere in the table, in the
      order of the rows. */
  lemma ParseDatesFromRows(table: Element, k: nat)
    requires k < |ParseDates(table)|
    ensures var row := Matches(table, RowQuery)[k + 1];
      row.name == "tr" && InTree(row, table) && ParseDates(table)[k] == Trim(TextValue(row))
  {
    FindSound(table, RowQuery, k + 1);
  }

  /** `tables.slice(2).map(t => Calendar.fromTable(t, dates))`: the first
      failure, in table order, is the result. */
  function FromTables(tables: seq<Element>, dates: seq<string>): Result<seq<Calendar>> {
    FirstFailure(TableResults(tables, dates))
  }

  /** The values of `rs` in order, or the error of the first failure among them. */
  function FirstFailure<T>(rs: seq<Result<T>>): Result<seq<T>>
    decreases |rs|
  {
    if rs == [] then Ok([])
    else
      match rs[0]
      case Err(e) => Err(e)
      case Ok(v) =>
        match FirstFailure(rs[1..])
        case Err(e) => Err(e)
        case Ok(vs) => Ok([v] + vs)
  }

  lemma {:induction false} FirstFailureOk<T>(rs: seq<Result<T>>)
    requires FirstFailure(rs).Ok?
    ensures |FirstFailure(rs).value| == |rs|
    ensures forall k :: 0 <= k < |rs| ==> rs[k] == Ok(FirstFailure(rs).value[k])
    decreases |rs|
  {
    if rs != [] {
      FirstFailureOk(rs[1..]);
      var all := FirstFailure(rs).value;
      var rest := FirstFailure(rs[1..]).value;
      assert all == [rs[0].value] + rest;
      forall k | 1 <= k < |rs|
        ensures rs[k] == Ok(all[k])
      {
        assert rs[k] == rs[1..][k - 1] && all[k] == rest[k - 1];
      }
    }
  }

  lemma {:induction false} FirstFailureErr<T>(rs: seq<Result<T>>)
    requires FirstFailure(rs).Err?
    ensures exists k :: 0 <= k < |rs| && rs[k] == Err(FirstFailure(rs).error) && forall j :: 0 <= j < k ==> rs[j].Ok?
    decreases |rs|
  {
    if rs[0].Ok? {
      FirstFailureErr(rs[1..]);
      var k :| 0 <= k < |rs[1..]| && rs[1..][k] == Err(FirstFailure(rs).error) && forall j :: 0 <= j < k ==> rs[1..][j].Ok?;
      assert rs[k + 1] == rs[1..][k];
      forall j | 0 <= j < k + 1 ensures rs[j].Ok? {
        if j > 0 {
          assert rs[j] == rs[1..][j - 1];
        }
      }
    }
  }

  /** Success gives one calendar per table, each the table's own `fromTable`. */
  lemma FromTablesEach(tables: seq<Element>, dates: seq<string>)
    requires FromTables(tables, dates).Ok?
    ensures |FromTables(tables, dates).value| == |tables|
    ensures forall k :: 0 <= k < |tables| ==> FromTable(tables[k], dates) == Ok(FromTables(tables, dates).value[k])
  {
    FirstFailureOk(TableResults(tables, dates));
  }

  /** Failure is the failure of the first table that fails; every table
      before it succeeds. */
  lemma FromTablesFailure(tables: seq<Element>, dates: seq<string>)
    requires FromTables(tables, dates).Err?
    ensures exists k :: (0 <= k < |tables| && FromTable(tables[k], dates) == Err(FromTables(tables, dates).error)
      && forall j :: 0 <= j < k ==> FromTable(tables[j], dates).Ok?)
  {
    var rs := TableResults(tables, dates);
    FirstFailureErr(rs);
    var k :| 0 <= k < |rs| && rs[k] == Err(FirstFailure(rs).error) && forall j :: 0 <= j < k ==> rs[j].Ok?;
    assert FromTable(tables[k], dates) == Err(FromTables(tables, dates).error);
  }

  function TableResults(tables: seq<Element>, dates: seq<string>): (rs: seq<Result<Calendar>>)
    ensures |rs| == |tables|
    ensures forall k :: 0 <= k < |tables| ==> rs[k] == FromTable(tables[k], dates)
  {
    seq(|tables|, k requires 0 <= k < |tables| => FromTable(tables[k], dates))
  }

  /** The calendars of a parsed page: the `table.tcontent` elements in
      pre-order, the second holding the dates and every later one a court. */
  function CalendarsOf(root: Element): Result<seq<Calendar>> {
    var tables := Matches(root, TableQuery);
    if |tables| < 2 then Err(MissingDatesTable)
    else FromTables(tables[2..], ParseDates(tables[1]))
  }

  /** `getCalendarInfo(content)`, with `XmlService.parse` as the parameter `parse`. */
  function GetCalendarInfo(content: string, parse: string -> Result<Element>): Result<seq<Calendar>> {
    match parse(NormalizedHtml(content))
    case Err(e) => Err(e)
    case Ok(root) => CalendarsOf(root)
  }

  /** One calendar per court table after the first two, every one with the
      dates of the second table and with slot times normalised from its own
      schedule names. */
  lemma CalendarsOfCourts(root: Element)
    requires CalendarsOf(root).Ok?
    ensures var tables := Matches(root, TableQuery);
      var cs := CalendarsOf(root).value;
      && |tables| >= 2 && |cs| == |tables| - 2
      && forall k :: 0 <= k < |cs| ==>
           && WellFormed(cs[k])
           && FromTable(tables[k + 2], ParseDates(tables[1])) == Ok(cs[k])
           && forall i :: 0 <= i < |cs[k].days| ==> cs[k].days[i].date == DateAt(ParseDates(tables[1]), i)
  {
    var tables := Matches(root, TableQuery);
    var cs := CalendarsOf(root).value;
    FromTablesEach(tables[2..], ParseDates(tables[1]));
    forall k | 0 <= k < |cs|
      ensures WellFormed(cs[k]) && FromTable(tables[k + 2], ParseDates(tables[1])) == Ok(cs[k])
    {
      assert tables[2..][k] == tables[k + 2];
    }
  }

  // ---------------------------------------------------------------------------
  // getDiffs

  /** The target list both callers pass to `compare`. */
  const Targets: seq<string> := [TargetAsWritten]

  /** The changes of one court. */
  datatype DiffGroup = DiffGroup(name: string, diffs: seq<Diff>)

  /** Where a run leaves the workbook, and what it returns or why it stopped. */
  datatype Outcome<T> = Outcome(sheets: map<string, seq<seq<string>>>, result: Result<T>)

  /** What `compare` yields against the previous snapshot, if there is one. */
  ghost function PreviousDiffs(prev: Option<Calendar>, c: Calendar, targets: seq<string>): Result<seq<Diff>> {
    match prev
    case None => Ok([])
    case Some(p) => CompareSpec(p, c, targets)
  }

  /** The `forEach` of `getDiffs` over the calendars `cs`, from the workbook
      `sheets` and the groups already found: restore, compare, push a group for
      a non-empty result, store. The first failure ends the run. */
  ghost function RunFrom(sheets: map<string, seq<seq<string>>>, groups: seq<DiffGroup>, cs: seq<Calendar>, targets: seq<string>): Outcome<seq<DiffGroup>>
    decreases |cs|
  {
    if cs == [] then Outcome(sheets, Ok(groups))
    else
      var c := cs[0];
      match RestoreSpec(sheets, c.name)
      case Err(e) => Outcome(sheets, Err(e))
      case Ok(prev) =>
        match PreviousDiffs(prev, c, targets)
        case Err(e) => Outcome(sheets, Err(e))
        case Ok(ds) =>
          var next := if ds != [] then groups + [DiffGroup(c.name, ds)] else groups;
          var stored := StoredSheets(sheets, c);
          if StoreResult(c).Err? then Outcome(stored, Err(StoreResult(c).error))
          else RunFrom(stored, next, cs[1..], targets)
  }

  /** The loop of `getDiffs` over the calendars of the page. */
  method CollectDiffs(calendars: seq<Calendar>, book: Workbook) returns (r: Result<seq<DiffGroup>>)
    modifies book
    ensures Outcome(book.sheets, r) == RunFrom(old(book.sheets), [], calendars, Targets)
  {
    var groups: seq<DiffGroup> := [];
    for i := 0 to |calendars|
      invariant RunFrom(book.sheets, groups, calendars[i..], Targets) == RunFrom(old(book.sheets), [], calendars, Targets)
    {
      var c := calendars[i];
      assert calendars[i..][0] == c && calendars[i..][1..] == calendars[i + 1..];
      var prev := Restore(c.name, book);
      if prev.Err? {
        return Err(prev.error);
      }
      if prev.value.Some? {
        var ds := Compare(prev.value.value, c, Targets);
        if ds.Err? {
          return Err(ds.error);
        }
        if |ds.value| > 0 {
          groups := groups + [DiffGroup(c.name, ds.value)];
        }
      }
      var stored := Store(c, book);
      if stored.Err? {
        return Err(stored.error);
      }
    }
    return Ok(groups);
  }

  /** `getDiffs()`, with the page `getCalendarPage` fetched as the parameter `page`. */
  ghost function GetDiffsSpec(page: Result<string>, parse: string -> Result<Element>, sheets: map<string, seq<seq<string>>>): Outcome<seq<DiffGroup>> {
    match page
    case Err(e) => Outcome(sheets, Err(e))
    case Ok(html) =>
      match GetCalendarInfo(html, parse)
      case Err(e) => Outcome(sheets, Err(e))
      case Ok(cs) => RunFrom(sheets, [], cs, Targets)
  }

  method GetDiffs(page: Result<string>, parse: string -> Result<Element>, book: Workbook) returns (r: Result<seq<DiffGroup>>)
    modifies book
    ensures Outcome(book.sheets, r) == GetDiffsSpec(page, parse, old(book.sheets))
  {
    if page.Err? {
      return Err(page.error);
    }
    var calendars := GetCalendarInfo(page.value, parse);
    if calendars.Err? {
      return Err(calendars.error);
    }
    r := CollectDiffs(calendars.value, book);
  }

  /** As written, a run never reports a change: every restored snapshot is
      well formed, so `compare` with the target as written yields nothing, and a
      run that does not fail returns the groups it started with. */
  lemma {:induction false} RunAsWrittenFindsNothing(sheets: map<string, seq<seq<string>>>, groups: seq<DiffGroup>, cs: seq<Calendar>)
    ensures RunFrom(sheets, groups, cs, Targets).result.Ok? ==> RunFrom(sheets, groups, cs, Targets).result.value == groups
    decreases |cs|
  {
    if cs != [] {
      var c := cs[0];
      match RestoreSpec(sheets, c.name)
      case Err(e) =>
      case Ok(prev) =>
        if prev.Some? {
          RestoredShape(c.name, sheets[c.name]);
          CompareAsWrittenIsEmpty(prev.value, c);
        }
        RunAsWrittenFindsNothing(StoredSheets(sheets, c), groups, cs[1..]);
    }
  }

  /** The workbook after storing every calendar in turn. */
  function StoreAll(sheets: map<string, seq<seq<string>>>, cs: seq<Calendar>): map<string, seq<seq<string>>>
    decreases |cs|
  {
    if cs == [] then sheets else StoreAll(StoredSheets(sheets, cs[0]), cs[1..])
  }

  /** A run that does not fail has stored every calendar, whether or not it
      had a snapshot or a change. */
  lemma {:induction false} RunStoresAll(sheets: map<string, seq<seq<string>>>, groups: seq<DiffGroup>, cs: seq<Calendar>, targets: seq<string>)
    requires RunFrom(sheets, groups, cs, targets).result.Ok?
    ensures RunFrom(sheets, groups, cs, targets).sheets == StoreAll(sheets, cs)
    ensures forall k :: 0 <= k < |cs| ==> StoreResult(cs[k]).Ok?
    decreases |cs|
  {
    if cs != [] {
      RunStoresAll(StoredSheets(sheets, cs[0]), RunGroupsAfterFirst(sheets, groups, cs, targets), cs[1..], targets);
      assert forall k :: 1 <= k < |cs| ==> cs[k] == cs[1..][k - 1];
    }
  }

  /** The groups after the first calendar of a run that got past it. */
  ghost function RunGroupsAfterFirst(sheets: map<string, seq<seq<string>>>, groups: seq<DiffGroup>, cs: seq<Calendar>, targets: seq<string>): seq<DiffGroup>
    requires cs != [] && RestoreSpec(sheets, cs[0].name).Ok?
    requires PreviousDiffs(RestoreSpec(sheets, cs[0].name).value, cs[0], targets).Ok?
  {
    var ds := PreviousDiffs(RestoreSpec(sheets, cs[0].name).value, cs[0], targets).value;
    if ds != [] then groups + [DiffGroup(cs[0].name, ds)] else groups
  }

  /** No two calendars of the page share a court name. */
  predicate DistinctNames(cs: seq<Calendar>) {
    forall i, j :: 0 <= i < j < |cs| ==> cs[i].name != cs[j].name
  }

  /** The group a calendar contributes when compared with the snapshot `sheets`
      hold under its name: none without a snapshot or without a change. */
  ghost function GroupOf(sheets: map<string, seq<seq<string>>>, c: Calendar, targets: seq<string>): seq<DiffGroup> {
    match RestoreSpec(sheets, c.name)
    case Err(_) => []
    case Ok(prev) =>
      match PreviousDiffs(prev, c, targets)
      case Err(_) => []
      case Ok(ds) => if ds != [] then [DiffGroup(c.name, ds)] else []
  }

  /** Every calendar compared with the snapshot taken before the run, in page order. */
  ghost function GroupsBefore(sheets: map<string, seq<seq<string>>>, cs: seq<Calendar>, targets: seq<string>): seq<DiffGroup>
    decreases |cs|
  {
    if cs == [] then [] else GroupOf(sheets, cs[0], targets) + GroupsBefore(sheets, cs[1..], targets)
  }

  /** Storing under a name no calendar of `cs` has does not change what they compare with. */
  lemma {:induction false} GroupsBeforeFrame(sheets: map<string, seq<seq<string>>>, name: string, grid: seq<seq<string>>, cs: seq<Calendar>, targets: seq<string>)
    requires forall k :: 0 <= k < |cs| ==> cs[k].name != name
    ensures GroupsBefore(sheets[name := grid], cs, targets) == GroupsBefore(sheets, cs, targets)
    decreases |cs|
  {
    if cs != [] {
      assert RestoreSpec(sheets[name := grid], cs[0].name) == RestoreSpec(sheets, cs[0].name);
      GroupsBeforeFrame(sheets, name, grid, cs[1..], targets);
    }
  }

  /** With distinct court names, each calendar is compared with its own
      snapshot from before the run, and the groups come in page order: a run
      that does not fail returns exactly the non-empty comparisons. */
  lemma {:induction false} RunComparesWithSnapshots(sheets: map<string, seq<seq<string>>>, groups: seq<DiffGroup>, cs: seq<Calendar>, targets: seq<string>)
    requires DistinctNames(cs)
    ensures RunFrom(sheets, groups, cs, targets).result.Ok? ==>
      RunFrom(sheets, groups, cs, targets).result.value == groups + GroupsBefore(sheets, cs, targets)
    decreases |cs|
  {
    if cs == [] {
      assert groups + [] == groups;
    } else if RunFrom(sheets, groups, cs, targets).result.Ok? {
      var c := cs[0];
      var g := GroupOf(sheets, c, targets);
      var later := GroupsBefore(sheets, cs[1..], targets);
      var next := RunGroupsAfterFirst(sheets, groups, cs, targets);
      assert next == groups + g;
      var stored := StoredSheets(sheets, c);
      assert RunFrom(sheets, groups, cs, targets) == RunFrom(stored, next, cs[1..], targets);
      DistinctTail(cs);
      RunComparesWithSnapshots(stored, next, cs[1..], targets);
      GroupsBeforeFrame(sheets, c.name, stored[c.name], cs[1..], targets);
      assert stored == sheets[c.name := stored[c.name]];
      assert RunFrom(sheets, groups, cs, targets).result.value == (groups + g) + later;
      assert GroupsBefore(sheets, cs, targets) == g + later;
      AppendAssoc(groups, g, later);
    }
  }

  /** The calendars after the first keep distinct names, none of them the first's. */
  lemma DistinctTail(cs: seq<Calendar>)
    requires cs != [] && DistinctNames(cs)
    ensures DistinctNames(cs[1..])
    ensures forall k :: 0 <= k < |cs[1..]| ==> cs[1..][k].name != cs[0].name
  {
    forall i, j | 0 <= i < j < |cs[1..]| ensures cs[1..][i].name != cs[1..][j].name {
      assert cs[1..][i] == cs[i + 1] && cs[1..][j] == cs[j + 1];
    }
    forall k | 0 <= k < |cs[1..]| ensures cs[1..][k].name != cs[0].name {
      assert cs[1..][k] == cs[k + 1];
    }
  }

  // ---------------------------------------------------------------------------
  // Messages and main

  /** The lines of a group, one per change, in order. */
  function DiffLines(g: DiffGroup): (lines: seq<string>)
    ensures |lines| == |g.diffs|
    ensures forall k :: 0 <= k < |g.diffs| ==> lines[k] == DiffText(g.diffs[k])
  {
    seq(|g.diffs|, k requires 0 <= k < |g.diffs| => DiffText(g.diffs[k]))
  }

  /** `DiffGroup.toString()`: `[name]` and a line break, then the changes'
      lines in order, one line break between each two. */
  function GroupText(g: DiffGroup): (r: string)
    ensures IsInfixAt("[" + g.name + "]\n", r, 0)
    ensures |g.diffs| == 0 ==> r == "[" + g.name + "]\n"
    ensures |g.diffs| > 0 ==> LaidOut(DiffLines(g), "\n", r, |g.name| + 3)
    ensures forall k :: 0 <= k < |g.diffs| ==> IsInfix(DiffText(g.diffs[k]), r)
  {
    GroupTextLayout(g);
    "[" + g.name + "]\n" + Join(DiffLines(g), "\n")
  }

  lemma GroupTextLayout(g: DiffGroup)
    ensures var r := "[" + g.name + "]\n" + Join(DiffLines(g), "\n");
      && IsInfixAt("[" + g.name + "]\n", r, 0)
      && (|g.diffs| == 0 ==> r == "[" + g.name + "]\n")
      && (|g.diffs| > 0 ==> LaidOut(DiffLines(g), "\n", r, |g.name| + 3))
      && (forall k :: 0 <= k < |g.diffs| ==> IsInfix(DiffText(g.diffs[k]), r))
  {
    var lines := DiffLines(g);
    var head := "[" + g.name + "]\n";
    var r := head + Join(lines, "\n");
    HeadThenJoin(head, lines, "\n");
    forall k | 0 <= k < |g.diffs| ensures IsInfix(DiffText(g.diffs[k]), r) {
      JoinInfix(lines, "\n", k);
      SuffixInfix(head, Join(lines, "\n"));
      InfixTransitive(lines[k], Join(lines, "\n"), r);
    }
  }

  /** A piece of the tail is a piece of the whole. */
  lemma SuffixInfix(head: string, tail: string)
    ensures IsInfix(tail, head + tail)
  {
    assert (head + tail)[|head|..|head| + |tail|] == tail;
    assert IsInfixAt(tail, head + tail, |head|);
  }

  const DiffHeader: string := "施設空き情報に変更が見つかりました"

  /** The groups' texts, in order. */
  function GroupTexts(groups: seq<DiffGroup>): (texts: seq<string>)
    ensures |texts| == |groups|
    ensures forall g :: 0 <= g < |groups| ==> texts[g] == GroupText(groups[g])
  {
    seq(|groups|, g requires 0 <= g < |groups| => GroupText(groups[g]))
  }

  /** `createDiffMessage(groups)`: the fixed heading and a line break, then the
      groups' texts in order, a blank line between each two. Every change of
      every group appears in it. */
  function CreateDiffMessage(groups: seq<DiffGroup>): (r: string)
    ensures IsInfixAt(DiffHeader + "\n", r, 0)
    ensures |groups| == 0 ==> r == DiffHeader + "\n"
    ensures |groups| > 0 ==> LaidOut(GroupTexts(groups), "\n\n", r, |DiffHeader| + 1)
    ensures forall g, k :: 0 <= g < |groups| && 0 <= k < |groups[g].diffs| ==> IsInfix(DiffText(groups[g].diffs[k]), r)
  {
    var texts := GroupTexts(groups);
    var head := DiffHeader + "\n";
    var r := head + Join(texts, "\n\n");
    HeadThenJoin(head, texts, "\n\n");
    forall g, k | 0 <= g < |groups| && 0 <= k < |groups[g].diffs|
      ensures IsInfix(DiffText(groups[g].diffs[k]), r)
    {
      JoinInfix(texts, "\n\n", g);
      SuffixInfix(head, Join(texts, "\n\n"));
      InfixTransitive(texts[g], Join(texts, "\n\n"), r);
      InfixTransitive(DiffText(groups[g].diffs[k]), texts[g], r);
    }
    r
  }

  const ErrorPrefix: string := "エラーが発生しました。 "

  /** How a failure renders in `${error}`; the JavaScript error texts are not modelled. */
  function ErrorText(e: Error): string {
    match e
    case MisalignedCalendars => "TypeError: misaligned calendars"
    case MissingTableRows => "TypeError: missing table rows"
    case MissingScheduleLabel => "TypeError: missing schedule label"
    case MissingDatesTable => "TypeError: missing dates table"
    case EmptySnapshot => "Exception: empty snapshot"
    case RowWidthMismatch => "Exception: row width mismatch"
    case InvalidRange => "Exception: invalid range"
    case NoSnapshot => "TypeError: no snapshot"
    case External(reason) => reason
  }

  /** What the `try`/`catch` of `main` hands to `notifier.send`, in order, for
      the outcome `r` of `getDiffs` and the outcome `sendFailure` of sending
      the diff message (`Some(e)` when that send throws `e`): the error message
      when `getDiffs` fails; the diff message when there are groups, followed
      by an error message when its send throws; nothing otherwise. */
  function Notifications(r: Result<seq<DiffGroup>>, sendFailure: Option<Error>): (sent: seq<string>)
    ensures |sent| <= 2
    ensures |sent| == 0 <==> r.Ok? && |r.value| == 0
    ensures |sent| == 2 <==> r.Ok? && |r.value| > 0 && sendFailure.Some?
    ensures r.Err? ==> sent == [ErrorPrefix + ErrorText(r.error)]
    ensures r.Ok? && |r.value| > 0 ==> sent[0] == CreateDiffMessage(r.value)
    ensures |sent| == 2 ==> sent[1] == ErrorPrefix + ErrorText(sendFailure.value)
  {
    match r
    case Err(e) => [ErrorPrefix + ErrorText(e)]
    case Ok(groups) =>
      if |groups| == 0 then []
      else if sendFailure.None? then [CreateDiffMessage(groups)]
      else [CreateDiffMessage(groups), ErrorPrefix + ErrorText(sendFailure.value)]
  }

  /** `main()`: the messages handed to the notifier, with the fetched page,
      the XML parser and the outcome of sending the diff message as
      parameters. */
  method Run(page: Result<string>, parse: string -> Result<Element>, sendFailure: Option<Error>, book: Workbook)
    returns (sent: seq<string>)
    modifies book
    ensures sent == Notifications(GetDiffsSpec(page, parse, old(book.sheets)).result, sendFailure)
    ensures book.sheets == GetDiffsSpec(page, parse, old(book.sheets)).sheets
  {
    var groups := GetDiffs(page, parse, book);
    if groups.Err? {
      sent := [ErrorPrefix + ErrorText(groups.error)];
    } else if |groups.value| > 0 {
      var message := CreateDiffMessage(groups.value);
      if sendFailure.None? {
        sent := [message];
      } else {
        sent := [message, ErrorPrefix + ErrorText(sendFailure.value)];
      }
    } else {
      sent := [];
    }
  }

  /** As written, `main` never sends a diff message: at most an error. */
  lemma RunAsWrittenSendsNoDiff(page: Result<string>, parse: string -> Result<Element>, sendFailure: Option<Error>,
                                sheets: map<string, seq<seq<string>>>)
    ensures var r := GetDiffsSpec(page, parse, sheets).result;
      Notifications(r, sendFailure) == [] || (r.Err? && Notifications(r, sendFailure) == [ErrorPrefix + ErrorText(r.error)])
  {
    if page.Ok? && GetCalendarInfo(page.value, parse).Ok? {
      RunAsWrittenFindsNothing(sheets, [], GetCalendarInfo(page.value, parse).value);
    }
  }

  // ---------------------------------------------------------------------------
  // getPayload

  /** One `key=value` entry of a payload template. */
  function Entry(kv: (string, string)): string {
    kv.0 + "=" + kv.1
  }

  /** The template's entries as `key=value`, in template order. */
  function Entries(template: seq<(string, string)>): (entries: seq<string>)
    ensures |entries| == |template|
    ensures forall k :: 0 <= k < |template| ==> entries[k] == Entry(template[k])
  {
    seq(|template|, k requires 0 <= k < |template| => Entry(template[k]))
  }

  /** `getPayload(name)` for the template `payloads[name]`: the entries as
      `key=value`, in template order, joined with `&`, without escaping. */
  function GetPayload(template: seq<(string, string)>): (payload: string)
    ensures |template| == 0 ==> payload == ""
    ensures |template| > 0 ==> LaidOut(Entries(template), "&", payload, 0)
    ensures forall k :: 0 <= k < |template| ==> IsInfix(Entry(template[k]), payload)
  {
    var entries := Entries(template);
    forall k | 0 <= k < |template| ensures IsInfix(Entry(template[k]), Join(entries, "&")) {
      JoinInfix(entries, "&", k);
    }
    if |entries| > 0 then JoinLaidOut(entries, "&"); Join(entries, "&")
    else Join(entries, "&")
  }

  /** A payload splits back into its template, provided no key or value holds
      `&` and no key holds `=`. */
  lemma PayloadRoundTrip(template: seq<(string, string)>)
    requires |template| >= 1
    requires forall k :: 0 <= k < |template| ==> '&' !in template[k].0 && '&' !in template[k].1 && '=' !in template[k].0
    ensures var parts := SplitOn(GetPayload(template), '&');
      && |parts| == |template|
      && forall k :: 0 <= k < |template| ==>
           && parts[k] == Entry(template[k])
           && TakeUntil(parts[k], '=') == template[k].0
           && parts[k][|template[k].0| + 1..] == template[k].1
  {
    var entries := Entries(template);
    forall k | 0 <= k < |entries| ensures '&' !in entries[k] {
      assert entries[k] == template[k].0 + "=" + template[k].1;
    }
    SplitJoin(entries, '&');
    forall k | 0 <= k < |template|
      ensures TakeUntil(entries[k], '=') == template[k].0
    {
      TakeUntilSeparated(template[k].0, '=', template[k].1);
    }
  }
}
