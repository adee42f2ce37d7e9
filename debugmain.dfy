/** The older debug revision of the entry point, src/main.ts. It reads a saved
    page rather than fetching one, gathers the changes of all courts into one
    flat list, and writes them to the log. It shares `normalizeHtml`,
    `parseDates`, `getCalendarInfo` and `getPayload` with src/x_main.ts, so
    those come from `XMain`. Unlike the later revision it has no null check on
    the restored snapshot and no `try`/`catch`. */
module DebugMain {
  import opened Results
  import opened HtmlParser
  import opened Calendars
  import opened XMain

  /** The `forEach` of `main` from the workbook `sheets` with the changes
      `diffs` already gathered, comparing the slots named in `targets`. A
      court without a snapshot fails at `old.compare` on `null`. */
  ghost function DebugRunFrom(sheets: map<string, seq<seq<string>>>, diffs: seq<Diff>, cs: seq<Calendar>, targets: seq<string>): Outcome<seq<Diff>>
    decreases |cs|
  {
    if cs == [] then Outcome(sheets, Ok(diffs))
    else
      var c := cs[0];
      match RestoreSpec(sheets, c.name)
      case Err(e) => Outcome(sheets, Err(e))
      case Ok(prev) =>
        if prev.None? then Outcome(sheets, Err(NoSnapshot))
        else
          match CompareSpec(prev.value, c, targets)
          case Err(e) => Outcome(sheets, Err(e))
          case Ok(ds) =>
            var stored := StoredSheets(sheets, c);
            if StoreResult(c).Err? then Outcome(stored, Err(StoreResult(c).error))
            else DebugRunFrom(stored, diffs + ds, cs[1..], targets)
  }

  /** The changes of the groups, one after the other. */
  function Flatten(groups: seq<DiffGroup>): seq<Diff>
    decreases |groups|
  {
    if groups == [] then [] else groups[0].diffs + Flatten(groups[1..])
  }

  lemma {:induction false} FlattenSnoc(groups: seq<DiffGroup>, g: DiffGroup)
    ensures Flatten(groups + [g]) == Flatten(groups) + g.diffs
    decreases |groups|
  {
    if groups != [] {
      assert (groups + [g])[1..] == groups[1..] + [g];
      FlattenSnoc(groups[1..], g);
    }
  }

  /** For any slot list: where the debug run succeeds, the later revision
      succeeds as well, leaves the same workbook, and its groups flatten to the
      same changes in the same order; where the debug run fails for another
      reason than a missing snapshot, the later revision fails with the same
      error and the same workbook. */
  lemma {:induction false} DebugRunFlattens(sheets: map<string, seq<seq<string>>>, groups: seq<DiffGroup>, diffs: seq<Diff>,
                                            cs: seq<Calendar>, targets: seq<string>)
    requires Flatten(groups) == diffs
    ensures var d := DebugRunFrom(sheets, diffs, cs, targets);
      var x := RunFrom(sheets, groups, cs, targets);
      d.result.Ok? ==> x.result.Ok? && Flatten(x.result.value) == d.result.value && x.sheets == d.sheets
    ensures var d := DebugRunFrom(sheets, diffs, cs, targets);
      var x := RunFrom(sheets, groups, cs, targets);
      d.result.Err? && d.result.error != NoSnapshot ==> x.result == Err(d.result.error) && x.sheets == d.sheets
    decreases |cs|
  {
    if cs != [] {
      var c := cs[0];
      var restored := RestoreSpec(sheets, c.name);
      if restored.Ok? && restored.value.Some? && CompareSpec(restored.value.value, c, targets).Ok? && StoreResult(c).Ok? {
        var ds := CompareSpec(restored.value.value, c, targets).value;
        var next := if ds != [] then groups + [DiffGroup(c.name, ds)] else groups;
        if ds != [] {
          FlattenSnoc(groups, DiffGroup(c.name, ds));
        } else {
          assert diffs + ds == diffs;
        }
        DebugRunFlattens(StoredSheets(sheets, c), next, diffs + ds, cs[1..], targets);
      }
    }
  }

  /** A court without a snapshot stops the debug run, where the later
      revision skips the comparison. */
  lemma MissingSnapshotFails(sheets: map<string, seq<seq<string>>>, diffs: seq<Diff>, cs: seq<Calendar>, targets: seq<string>)
    requires cs != [] && RestoreSpec(sheets, cs[0].name) == Ok(None)
    ensures DebugRunFrom(sheets, diffs, cs, targets) == Outcome(sheets, Err(NoSnapshot))
    ensures RunFrom(sheets, [], cs, targets) == RunFrom(StoredSheets(sheets, cs[0]), [], cs[1..], targets)
      || (StoreResult(cs[0]).Err? && RunFrom(sheets, [], cs, targets) == Outcome(StoredSheets(sheets, cs[0]), Err(StoreResult(cs[0]).error)))
  {
  }

  /** As written, the debug run logs no change. */
  lemma DebugRunAsWrittenLogsNothing(sheets: map<string, seq<seq<string>>>, cs: seq<Calendar>)
    ensures DebugRunFrom(sheets, [], cs, Targets).result.Ok? ==> DebugRunFrom(sheets, [], cs, Targets).result.value == []
  {
    DebugRunFlattens(sheets, [], [], cs, Targets);
    RunAsWrittenFindsNothing(sheets, [], cs);
  }

  /** The loop over the calendars of `main`. */
  method CollectFlat(calendars: seq<Calendar>, book: Workbook) returns (r: Result<seq<Diff>>)
    modifies book
    ensures Outcome(book.sheets, r) == DebugRunFrom(old(book.sheets), [], calendars, Targets)
  {
    var diffs: seq<Diff> := [];
    for i := 0 to |calendars|
      invariant DebugRunFrom(book.sheets, diffs, calendars[i..], Targets) == DebugRunFrom(old(book.sheets), [], calendars, Targets)
    {
      var c := calendars[i];
      assert calendars[i..][0] == c && calendars[i..][1..] == calendars[i + 1..];
      var prev := Restore(c.name, book);
      if prev.Err? {
        return Err(prev.error);
      }
      if prev.value.None? {
        return Err(NoSnapshot);
      }
      var ds := Compare(prev.value.value, c, Targets);
      if ds.Err? {
        return Err(ds.error);
      }
      diffs := diffs + ds.value;
      var stored := Store(c, book);
      if stored.Err? {
        return Err(stored.error);
      }
    }
    return Ok(diffs);
  }

  /** The log lines of `diffs.forEach(d => Logger.log(d.toString()))`. */
  function LogLines(diffs: seq<Diff>): (lines: seq<string>)
    ensures |lines| == |diffs|
    ensures forall k :: 0 <= k < |diffs| ==> lines[k] == DiffText(diffs[k])
  {
    seq(|diffs|, k requires 0 <= k < |diffs| => DiffText(diffs[k]))
  }

  /** The logging loop `diffs.forEach(d => Logger.log(d.toString()))`. */
  method LogAll(diffs: seq<Diff>) returns (lines: seq<string>)
    ensures lines == LogLines(diffs)
  {
    lines := [];
    for k := 0 to |diffs|
      invariant lines == LogLines(diffs[..k])
    {
      lines := lines + [DiffText(diffs[k])];
    }
    assert diffs[..|diffs|] == diffs;
  }

  /** What `main` leaves behind: the log lines, or the uncaught failure. */
  ghost function DebugSpec(content: string, parse: string -> Result<Element>, sheets: map<string, seq<seq<string>>>): Outcome<seq<string>> {
    match GetCalendarInfo(content, parse)
    case Err(e) => Outcome(sheets, Err(e))
    case Ok(cs) =>
      var o := DebugRunFrom(sheets, [], cs, Targets);
      match o.result
      case Err(e) => Outcome(o.sheets, Err(e))
      case Ok(ds) => Outcome(o.sheets, Ok(LogLines(ds)))
  }

  /** `main()` of the debug revision, with the saved page `test.html` as
      `content` and the XML parser as `parse`. */
  method Run(content: string, parse: string -> Result<Element>, book: Workbook) returns (logged: Result<seq<string>>)
    modifies book
    ensures Outcome(book.sheets, logged) == DebugSpec(content, parse, old(book.sheets))
  {
    var calendars := GetCalendarInfo(content, parse);
    if calendars.Err? {
      return Err(calendars.error);
    }
    var diffs := CollectFlat(calendars.value, book);
    if diffs.Err? {
      return Err(diffs.error);
    }
    var lines := LogAll(diffs.value);
    logged := Ok(lines);
  }
}
