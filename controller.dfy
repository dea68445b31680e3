/**
 * `Controller`: the in-memory, append-only list of reports, its queries,
 * the distinct ids, the earliest and latest dates, and the text of an
 * export. Queries are loops proved against the specification functions
 * `Select`, `Dedup` and `ExportLines`, whose properties are the lemmas.
 */
module Store {
  import opened Wrappers
  import opened Strings
  import opened Dates
  import opened Reports

  // ------------------------------------------------------------- filtering

  /** The four filters the controller applies to its list. */
  datatype Query =
    | ById(idGadget: string)
    | BySeverity(severity: Severity)
    | SinceDate(date: Date)
    | OfKind(kind: Kind)

  predicate Satisfies(r: Report, q: Query)
    reads r
  {
    match q
    case ById(idGadget) => r.idGadget == idGadget
    case BySeverity(severity) => r.severityType == severity
    case SinceDate(date) => OnOrBefore(date, r.dateReport)
    case OfKind(kind) => r.details.KindOf() == kind
  }

  /** The reports of `rs` that satisfy `q`, in list order. */
  function Select(rs: seq<Report>, q: Query): (selected: seq<Report>)
    reads rs
    ensures forall r :: r in selected ==> r in rs
  {
    if rs == [] then []
    else
      var last := rs[|rs| - 1];
      Select(rs[..|rs| - 1], q) + (if Satisfies(last, q) then [last] else [])
  }

  /** A report is selected exactly when it is in the list and satisfies the query. */
  lemma {:induction false} SelectMembers(rs: seq<Report>, q: Query)
    ensures forall r :: r in Select(rs, q) <==> r in rs && Satisfies(r, q)
  {
    if rs != [] {
      SelectMembers(rs[..|rs| - 1], q);
      assert rs == rs[..|rs| - 1] + [rs[|rs| - 1]];
    }
  }

  /** No report selected, exactly when no report in the list satisfies the query. */
  lemma SelectEmpty(rs: seq<Report>, q: Query)
    ensures Select(rs, q) == [] <==> forall r :: r in rs ==> !Satisfies(r, q)
  {
    SelectMembers(rs, q);
    if Select(rs, q) != [] {
      assert Select(rs, q)[0] in Select(rs, q);
    }
  }

  /**
   * The selection keeps list order: it is the list read at an increasing
   * sequence of positions, and those positions are exactly the ones whose
   * report satisfies the query.
   */
  lemma {:induction false} SelectInOrder(rs: seq<Report>, q: Query) returns (positions: seq<nat>)
    ensures |positions| == |Select(rs, q)|
    ensures forall a, b :: 0 <= a < b < |positions| ==> positions[a] < positions[b]
    ensures forall k :: 0 <= k < |positions| ==> positions[k] < |rs| && Select(rs, q)[k] == rs[positions[k]]
    ensures forall j :: 0 <= j < |rs| ==> (j in positions <==> Satisfies(rs[j], q))
  {
    if rs == [] {
      positions := [];
    } else {
      var n := |rs| - 1;
      var init := rs[..n];
      var p := SelectInOrder(init, q);
      assert forall k :: 0 <= k < |p| ==> init[p[k]] == rs[p[k]];
      if Satisfies(rs[n], q) {
        positions := p + [n];
      } else {
        positions := p;
      }
    }
  }

  /** Selecting from a concatenation selects from each part: appending a report only extends every result. */
  lemma {:induction false} SelectAppend(a: seq<Report>, b: seq<Report>, q: Query)
    ensures Select(a + b, q) == Select(a, q) + Select(b, q)
  {
    if b != [] {
      var n := |b| - 1;
      assert (a + b)[..|a + b| - 1] == a + b[..n];
      SelectAppend(a, b[..n], q);
    } else {
      assert a + b == a;
    }
  }

  // ------------------------------------------------------------ severities

  /** The number the menu shows for a severity (its ordinal plus one). */
  function CodeOf(severity: Severity): int
  {
    match severity
    case Alto => 1
    case Medio => 2
    case Bajo => 3
  }

  /** The switch of `searchBySeverityType`. */
  function SeverityOfCode(code: int): (r: Option<Severity>)
    ensures r.Some? <==> 1 <= code <= 3
    ensures r.Some? ==> CodeOf(r.value) == code
  {
    if code == 1 then Some(Alto)
    else if code == 2 then Some(Medio)
    else if code == 3 then Some(Bajo)
    else None
  }

  lemma SeverityCodeRoundTrip(severity: Severity)
    ensures SeverityOfCode(CodeOf(severity)) == Some(severity)
  {
  }

  // ---------------------------------------------------------- distinct ids

  function IdsOf(rs: seq<Report>): (ids: seq<string>)
    reads rs
    ensures |ids| == |rs| && forall k :: 0 <= k < |rs| ==> ids[k] == rs[k].idGadget
  {
    if rs == [] then [] else IdsOf(rs[..|rs| - 1]) + [rs[|rs| - 1].idGadget]
  }

  /** The elements of `xs`, each kept at its first occurrence. */
  function Dedup<T(==)>(xs: seq<T>): seq<T>
  {
    if xs == [] then []
    else
      var seen := Dedup(xs[..|xs| - 1]);
      if xs[|xs| - 1] in seen then seen else seen + [xs[|xs| - 1]]
  }

  /** Where `x` first occurs in `xs`. */
  ghost function FirstIndex<T>(xs: seq<T>, x: T): (k: nat)
    requires x in xs
    ensures k < |xs| && xs[k] == x && x !in xs[..k]
  {
    var n := |xs| - 1;
    if x in xs[..n] then (assert xs[..n][..FirstIndex(xs[..n], x)] == xs[..FirstIndex(xs[..n], x)]; FirstIndex(xs[..n], x))
    else (assert xs == xs[..n] + [xs[n]]; n)
  }

  ghost predicate NoDuplicates<T>(xs: seq<T>)
  {
    forall a, b :: 0 <= a < b < |xs| ==> xs[a] != xs[b]
  }

  lemma {:induction false} DedupNoDuplicates<T>(xs: seq<T>)
    ensures NoDuplicates(Dedup(xs))
  {
    if xs != [] {
      DedupNoDuplicates(xs[..|xs| - 1]);
    }
  }

  lemma {:induction false} DedupSameElements<T>(xs: seq<T>)
    ensures forall x :: x in Dedup(xs) <==> x in xs
  {
    if xs != [] {
      DedupSameElements(xs[..|xs| - 1]);
      assert xs == xs[..|xs| - 1] + [xs[|xs| - 1]];
    }
  }

  /**
   * `DedupSameElements` at one element. The quantified form does not fire
   * on membership in a slice such as `xs[..n]`, which Dafny rewrites.
   */
  lemma DedupMember<T>(xs: seq<T>, x: T)
    ensures x in Dedup(xs) <==> x in xs
  {
    DedupSameElements(xs);
  }

  /** Earlier in the result means first seen earlier in the input. */
  lemma {:induction false} DedupFirstSeenOrder<T>(xs: seq<T>, a: nat, b: nat)
    requires a < b < |Dedup(xs)|
    ensures Dedup(xs)[a] in xs && Dedup(xs)[b] in xs
    ensures FirstIndex(xs, Dedup(xs)[a]) < FirstIndex(xs, Dedup(xs)[b])
  {
    var n := |xs| - 1;
    var init := xs[..n];
    var seen := Dedup(init);
    var d := Dedup(xs);
    DedupMember(init, seen[a]);
    FirstIndexOfPrefix(xs, n, d[a]);
    if b < |seen| {
      DedupFirstSeenOrder(init, a, b);
      DedupMember(init, seen[b]);
      FirstIndexOfPrefix(xs, n, d[b]);
    } else {
      DedupMember(init, xs[n]);
    }
  }

  /**
   * The equipment ids of a list, de-duplicated: no id twice, exactly the ids
   * some report carries, in order of first appearance.
   */
  lemma DistinctIdsOfReports(rs: seq<Report>)
    ensures NoDuplicates(Dedup(IdsOf(rs)))
    ensures forall id :: id in Dedup(IdsOf(rs)) <==> exists r :: r in rs && r.idGadget == id
  {
    var ids := IdsOf(rs);
    DedupNoDuplicates(ids);
    DedupSameElements(ids);
    forall id ensures id in ids <==> exists r :: r in rs && r.idGadget == id {
      if id in ids {
        var k :| 0 <= k < |ids| && ids[k] == id;
        assert rs[k] in rs;
      }
    }
  }

  lemma FirstIndexOfPrefix<T>(xs: seq<T>, n: nat, x: T)
    requires n <= |xs| && x in xs[..n]
    ensures x in xs && FirstIndex(xs, x) == FirstIndex(xs[..n], x)
  {
    var j := FirstIndex(xs[..n], x);
    assert xs[..n][j] == xs[j];
  }

  // ----------------------------------------------------------------- export

  const Separator: string := "----------------------------------------"
  const ReportsFolder: string := "reports/"

  /** The title line of an export, with the day as `LocalDate.toString` prints it. */
  function Header(kind: Kind, today: Date): string
  {
    "Reporte de " + kind.Name() + " generado el " + Iso(today)
  }

  /**
   * The title line has 42 characters: the kind at columns 11 to 18, then
   * ` generado el ` and, at the end, the ISO day (so year 0 reads 0000 here).
   */
  lemma HeaderLayout(kind: Kind, today: Date)
    ensures var h := Header(kind, today);
      && |h| == 42 && h[..11] == "Reporte de " && h[11..19] == kind.Name()
      && h[19..32] == " generado el " && h[32..] == Iso(today)
  {
    IsoLength(today);
    ConcatParts("Reporte de ", kind.Name(), " generado el ", Iso(today));
  }

  lemma MidnightText()
    ensures ZeroPad(0, 2) == "00"
  {
    assert NatString(0) == "0" && Zeros(1) == "0";
  }

  /**
   * `today.atStartOfDay()` formatted with the pattern yyyy-MM-dd_HH-mm-ss:
   * the day with its year of era, then the time, which is always midnight.
   */
  function Timestamp(today: Date): (t: string)
    ensures |t| == 19 && t[..10] == EraDate(today) && t[10..] == "_00-00-00"
  {
    var hour, minute, second := 0, 0, 0;
    var date := EraDate(today);
    EraDateLength(today);
    MidnightText();
    var time := ZeroPad(hour, 2) + "-" + ZeroPad(minute, 2) + "-" + ZeroPad(second, 2);
    assert time == "00-00-00";
    date + "_" + time
  }

  /** Where the pieces of `reports/Reporte_<name>_<t>.txt` lie, for an 8-character name and a 19-character time stamp. */
  lemma FileNameLayout(name: string, t: string)
    requires |name| == 8 && |t| == 19
    ensures var f := ReportsFolder + "Reporte_" + name + "_" + t + ".txt";
      && |f| == 48 && f[..16] == "reports/Reporte_" && f[16..24] == name && f[24] == '_'
      && f[25..35] == t[..10] && f[35..44] == t[10..] && f[44..] == ".txt"
  {
    var head := ReportsFolder + "Reporte_" + name + "_";
    var f := head + t + ".txt";
    ConcatParts(head, t[..10], t[10..], ".txt");
    assert f == head + t[..10] + t[10..] + ".txt" by {
      assert t == t[..10] + t[10..];
    }
    ConcatParts(ReportsFolder + "Reporte_", name, "_", []);
    assert f[..16] == f[..25][..16] && f[16..24] == f[..25][16..24];
  }

  /** `reports/Reporte_<kind>_<timestamp>.txt`: the kind at 16 to 23, the day at 25 to 34, and midnight. */
  function ExportFileName(kind: Kind, today: Date): (f: string)
    ensures |f| == 48 && f[..16] == "reports/Reporte_" && f[16..24] == kind.Name() && f[24] == '_'
    ensures f[25..35] == EraDate(today) && f[35..44] == "_00-00-00" && f[44..] == ".txt"
  {
    FileNameLayout(kind.Name(), Timestamp(today));
    ReportsFolder + "Reporte_" + kind.Name() + "_" + Timestamp(today) + ".txt"
  }

  function Infos(rs: seq<Report>): (lines: seq<string>)
    reads rs
    ensures |lines| == |rs| && forall k :: 0 <= k < |rs| ==> lines[k] == rs[k].ReportInfo()
  {
    if rs == [] then [] else Infos(rs[..|rs| - 1]) + [rs[|rs| - 1].ReportInfo()]
  }

  /** The lines the export loop prints: the rendered reports of one kind, in list order. */
  function KindLines(rs: seq<Report>, kind: Kind): seq<string>
    reads rs
  {
    if rs == [] then []
    else
      var last := rs[|rs| - 1];
      KindLines(rs[..|rs| - 1], kind) + (if last.details.KindOf() == kind then [last.ReportInfo()] else [])
  }

  /** One more report of the list adds its line exactly when it is of the kind. */
  lemma KindLinesStep(rs: seq<Report>, i: nat, kind: Kind)
    requires i < |rs|
    ensures KindLines(rs[..i + 1], kind)
      == KindLines(rs[..i], kind) + (if rs[i].details.KindOf() == kind then [rs[i].ReportInfo()] else [])
  {
    assert rs[..i + 1][..i] == rs[..i];
  }

  /** The kind's lines are the rendering of the kind's order-preserving selection. */
  lemma {:induction false} KindLinesRenderSelection(rs: seq<Report>, kind: Kind)
    ensures KindLines(rs, kind) == Infos(Select(rs, OfKind(kind)))
  {
    if rs != [] {
      var n := |rs| - 1;
      KindLinesRenderSelection(rs[..n], kind);
      var sel := Select(rs[..n], OfKind(kind));
      if rs[n].details.KindOf() == kind {
        assert (sel + [rs[n]])[..|sel|] == sel;
      }
    }
  }

  /** The lines of an export file: title, separator, one rendered line per report of the kind. */
  function ExportLines(rs: seq<Report>, kind: Kind, today: Date): (lines: seq<string>)
    reads rs
    ensures |lines| >= 2 && lines[..2] == [Header(kind, today), Separator]
    ensures lines[2..] == Infos(Select(rs, OfKind(kind)))
  {
    KindLinesRenderSelection(rs, kind);
    [Header(kind, today), Separator] + KindLines(rs, kind)
  }

  /**
   * Every line after the first two renders a report of the requested kind
   * from the list, and every such report in the list is rendered.
   */
  lemma ExportLinesContents(rs: seq<Report>, kind: Kind, today: Date)
    ensures var lines := ExportLines(rs, kind, today);
      && |lines| >= 2 && lines[0] == Header(kind, today) && lines[1] == Separator
      && (forall k :: 2 <= k < |lines| ==>
            exists r :: r in rs && r.details.KindOf() == kind && lines[k] == r.ReportInfo())
      && (forall r :: r in rs && r.details.KindOf() == kind ==> r.ReportInfo() in lines[2..])
  {
    var sel := Select(rs, OfKind(kind));
    var lines := ExportLines(rs, kind, today);
    assert lines[..2][0] == lines[0] && lines[..2][1] == lines[1];
    SelectMembers(rs, OfKind(kind));
    RenderedSelection(sel, lines[2..], rs, kind);
  }

  lemma RenderedSelection(sel: seq<Report>, body: seq<string>, rs: seq<Report>, kind: Kind)
    requires body == Infos(sel)
    requires forall r :: r in sel <==> r in rs && r.details.KindOf() == kind
    ensures forall k :: 0 <= k < |body| ==> exists r :: r in rs && r.details.KindOf() == kind && body[k] == r.ReportInfo()
    ensures forall r :: r in rs && r.details.KindOf() == kind ==> r.ReportInfo() in body
  {
    forall k | 0 <= k < |body|
      ensures exists r :: r in rs && r.details.KindOf() == kind && body[k] == r.ReportInfo()
    {
      assert sel[k] in sel;
    }
    forall r | r in rs && r.details.KindOf() == kind
      ensures r.ReportInfo() in body
    {
      var k :| 0 <= k < |sel| && sel[k] == r;
      assert body[k] == r.ReportInfo();
    }
  }

  /**
   * Two exports get the same file name exactly when they are of the same
   * kind on the same day, or on the same month and day of years 0 and 1,
   * which `yyyy` prints alike.
   */
  lemma ExportFileNameCollisions(k1: Kind, d1: Date, k2: Kind, d2: Date)
    ensures ExportFileName(k1, d1) == ExportFileName(k2, d2)
      <==> k1 == k2 && (d1 == d2 || (d1.month == d2.month && d1.day == d2.day && d1.year + d2.year == 1))
  {
    EraDateCollisions(d1, d2);
    var f1, f2 := ExportFileName(k1, d1), ExportFileName(k2, d2);
    if f1 == f2 {
      assert k1.Name() == f1[16..24] == k2.Name();
      assert EraDate(d1) == f1[25..35] == EraDate(d2);
    }
  }

  // -------------------------------------------------------------- the store

  class Controller {
    var listReports: seq<Report>

    /**
     * The list starts as the previously saved one when it could be read
     * (`loaded` is the decoded data file), and empty otherwise.
     */
    constructor(loaded: Option<seq<Report>>)
      ensures listReports == if loaded.Some? then loaded.value else []
    {
      listReports := if loaded.Some? then loaded.value else [];
    }

    method AddReport(report: Report)
      modifies this`listReports
      ensures listReports == old(listReports) + [report]
    {
      listReports := listReports + [report];
    }

    method SearchReportsById(idGadget: string) returns (results: seq<Report>)
      ensures results == Select(listReports, ById(idGadget))
    {
      results := [];
      for i := 0 to |listReports|
        invariant results == Select(listReports[..i], ById(idGadget))
      {
        assert listReports[..i + 1][..i] == listReports[..i];
        if listReports[i].idGadget == idGadget {
          results := results + [listReports[i]];
        }
      }
      assert listReports[..|listReports|] == listReports;
    }

    method SearchBySeverityType(severityType: int) returns (results: seq<Report>)
      ensures SeverityOfCode(severityType).None? ==> results == []
      ensures SeverityOfCode(severityType).Some? ==>
        results == Select(listReports, BySeverity(SeverityOfCode(severityType).value))
    {
      var severity;
      match SeverityOfCode(severityType)
      case None => return [];
      case Some(s) => severity := s;
      results := [];
      for i := 0 to |listReports|
        invariant results == Select(listReports[..i], BySeverity(severity))
      {
        assert listReports[..i + 1][..i] == listReports[..i];
        if listReports[i].severityType == severity {
          results := results + [listReports[i]];
        }
      }
      assert listReports[..|listReports|] == listReports;
    }

    method SearchSinceDeterminateDate(date: Date) returns (results: seq<Report>)
      ensures results == Select(listReports, SinceDate(date))
    {
      results := [];
      for i := 0 to |listReports|
        invariant results == Select(listReports[..i], SinceDate(date))
      {
        assert listReports[..i + 1][..i] == listReports[..i];
        var d := listReports[i].dateReport;
        BeforeIsStrictTotalOrder(date, d, d);
        if d == date || Before(date, d) {
          results := results + [listReports[i]];
        }
      }
      assert listReports[..|listReports|] == listReports;
    }

    method GetEquipmentIds() returns (ids: seq<string>)
      ensures ids == Dedup(IdsOf(listReports))
    {
      ids := [];
      for i := 0 to |listReports|
        invariant ids == Dedup(IdsOf(listReports[..i]))
      {
        assert listReports[..i + 1][..i] == listReports[..i];
        var id := listReports[i].idGadget;
        if id !in ids {
          ids := ids + [id];
        }
      }
      assert listReports[..|listReports|] == listReports;
    }

    method GetEarliestDate() returns (earliest: Option<Date>)
      ensures earliest.None? <==> listReports == []
      ensures earliest.Some? ==> exists k :: 0 <= k < |listReports| && listReports[k].dateReport == earliest.value
      ensures earliest.Some? ==> forall k :: 0 <= k < |listReports| ==> OnOrBefore(earliest.value, listReports[k].dateReport)
    {
      if listReports == [] {
        return None;
      }
      var e := listReports[0].dateReport;
      for i := 0 to |listReports|
        invariant exists k :: 0 <= k < |listReports| && listReports[k].dateReport == e
        invariant forall k :: 0 <= k < i ==> OnOrBefore(e, listReports[k].dateReport)
      {
        if Before(listReports[i].dateReport, e) {
          e := listReports[i].dateReport;
        }
      }
      earliest := Some(e);
    }

    method GetLatestDate() returns (latest: Option<Date>)
      ensures latest.None? <==> listReports == []
      ensures latest.Some? ==> exists k :: 0 <= k < |listReports| && listReports[k].dateReport == latest.value
      ensures latest.Some? ==> forall k :: 0 <= k < |listReports| ==> OnOrBefore(listReports[k].dateReport, latest.value)
    {
      if listReports == [] {
        return None;
      }
      var l := listReports[0].dateReport;
      for i := 0 to |listReports|
        invariant exists k :: 0 <= k < |listReports| && listReports[k].dateReport == l
        invariant forall k :: 0 <= k < i ==> OnOrBefore(listReports[k].dateReport, l)
      {
        if Before(l, listReports[i].dateReport) {
          l := listReports[i].dateReport;
        }
      }
      latest := Some(l);
    }

    method GetListReports() returns (reports: seq<Report>)
      ensures reports == listReports
    {
      reports := listReports;
    }

    /**
     * The file name and the lines `generateReport` writes, for the day `today`:
     * the title and the separator, then the lines the loop collects, one per
     * report of the kind in list order.
     */
    method GenerateReport(kind: Kind, today: Date) returns (filename: string, lines: seq<string>)
      ensures filename == ExportFileName(kind, today)
      ensures lines == ExportLines(listReports, kind, today)
    {
      filename := ExportFileName(kind, today);
      var body := [];
      for i := 0 to |listReports|
        invariant body == KindLines(listReports[..i], kind)
      {
        var r := listReports[i];
        KindLinesStep(listReports, i, kind);
        if r.details.KindOf() == kind {
          body := body + [r.ReportInfo()];
        }
      }
      assert listReports[..|listReports|] == listReports;
      lines := [Header(kind, today), Separator] + body;
    }

    method GenerateHardwareReport(today: Date) returns (filename: string, lines: seq<string>)
      ensures filename == ExportFileName(HardwareKind, today)
      ensures lines == ExportLines(listReports, HardwareKind, today)
    {
      filename, lines := GenerateReport(HardwareKind, today);
    }

    method GenerateSoftwareReport(today: Date) returns (filename: string, lines: seq<string>)
      ensures filename == ExportFileName(SoftwareKind, today)
      ensures lines == ExportLines(listReports, SoftwareKind, today)
    {
      filename, lines := GenerateReport(SoftwareKind, today);
    }
  }
}
