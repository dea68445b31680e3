/**
 * The report entity: the common fields of `Report`, the two concrete shapes
 * `Hardware` and `Software`, their setters, and the dash-joined line that
 * `getReportInfo` renders.
 */
module Reports {
  import opened Strings
  import opened Dates

  const Int32Min: int := -0x8000_0000
  const Int32Max: int := 0x7FFF_FFFF

  /** Java's `int`. */
  type Int32 = n: int | Int32Min <= n <= Int32Max

  datatype Severity = Alto | Medio | Bajo
  {
    /** The enum constant's name, which is also what string concatenation prints. */
    function Name(): string
    {
      match this
      case Alto => "ALTO"
      case Medio => "MEDIO"
      case Bajo => "BAJO"
    }
  }

  /** Which of the two report classes a report is; `Name()` is the export's `type` string. */
  datatype Kind = HardwareKind | SoftwareKind
  {
    function Name(): string
    {
      if HardwareKind? then "Hardware" else "Software"
    }
  }

  /** The fields a concrete report class adds to the common ones. */
  datatype Details =
    | Hardware(componentType: string, serialNumber: Int32, hasToReplace: bool)
    | Software(systemOperation: string, softwareName: string, version: string)
  {
    function KindOf(): Kind
    {
      if Hardware? then HardwareKind else SoftwareKind
    }
  }

  /** The replacement flag as a hardware line prints it (the source literal is the two characters U+00C3 U+00AD after 'S'). */
  function ReplaceText(hasToReplace: bool): string
  {
    if hasToReplace then "S\U{00C3}\U{00AD}" else "No"
  }

  /** The variant's fields as a report line prints them. */
  function VariantFields(details: Details): seq<string>
  {
    match details
    case Hardware(componentType, serialNumber, hasToReplace) =>
      [componentType, IntString(serialNumber), ReplaceText(hasToReplace)]
    case Software(systemOperation, softwareName, version) =>
      [systemOperation, softwareName, version]
  }

  class Report {
    var idGadget: string
    var description: string
    var severityType: Severity
    var dateReport: Date
    var details: Details

    constructor Hardware(idGadget: string, description: string, severityType: Severity, dateReport: Date,
                         componentType: string, serialNumber: Int32, hasToReplace: bool)
      ensures this.idGadget == idGadget && this.description == description
      ensures this.severityType == severityType && this.dateReport == dateReport
      ensures details == Details.Hardware(componentType, serialNumber, hasToReplace)
    {
      this.idGadget := idGadget;
      this.description := description;
      this.severityType := severityType;
      this.dateReport := dateReport;
      details := Details.Hardware(componentType, serialNumber, hasToReplace);
    }

    constructor Software(idGadget: string, description: string, severityType: Severity, dateReport: Date,
                         systemOperation: string, softwareName: string, version: string)
      ensures this.idGadget == idGadget && this.description == description
      ensures this.severityType == severityType && this.dateReport == dateReport
      ensures details == Details.Software(systemOperation, softwareName, version)
    {
      this.idGadget := idGadget;
      this.description := description;
      this.severityType := severityType;
      this.dateReport := dateReport;
      details := Details.Software(systemOperation, softwareName, version);
    }

    method SetIdGadget(idGadget: string)
      modifies this`idGadget
      ensures this.idGadget == idGadget
    {
      this.idGadget := idGadget;
    }

    method SetDescription(description: string)
      modifies this`description
      ensures this.description == description
    {
      this.description := description;
    }

    method SetSeverityType(severityType: Severity)
      modifies this`severityType
      ensures this.severityType == severityType
    {
      this.severityType := severityType;
    }

    method SetDateReport(dateReport: Date)
      modifies this`dateReport
      ensures this.dateReport == dateReport
    {
      this.dateReport := dateReport;
    }

    method SetComponentType(componentType: string)
      requires details.Hardware?
      modifies this`details
      ensures details == old(details).(componentType := componentType)
    {
      details := details.(componentType := componentType);
    }

    method SetSerialNumber(serialNumber: Int32)
      requires details.Hardware?
      modifies this`details
      ensures details == old(details).(serialNumber := serialNumber)
    {
      details := details.(serialNumber := serialNumber);
    }

    method SetHasToReplace(hasToReplace: bool)
      requires details.Hardware?
      modifies this`details
      ensures details == old(details).(hasToReplace := hasToReplace)
    {
      details := details.(hasToReplace := hasToReplace);
    }

    method SetSystemOperation(systemOperation: string)
      requires details.Software?
      modifies this`details
      ensures details == old(details).(systemOperation := systemOperation)
    {
      details := details.(systemOperation := systemOperation);
    }

    method SetSoftwareName(softwareName: string)
      requires details.Software?
      modifies this`details
      ensures details == old(details).(softwareName := softwareName)
    {
      details := details.(softwareName := softwareName);
    }

    method SetVersion(version: string)
      requires details.Software?
      modifies this`details
      ensures details == old(details).(version := version)
    {
      details := details.(version := version);
    }

    /**
     * `getReportInfo()`: the common fields, then the variant's own fields,
     * joined by "-". The line begins with the id and ends with the variant's
     * last field; `InfoSplitsIntoFields` shows that nothing else is lost.
     */
    function ReportInfo(): (info: string)
      reads this
      ensures StartsWith(info, idGadget + "-")
      ensures details.Hardware? ==> EndsWith(info, "-" + ReplaceText(details.hasToReplace))
      ensures details.Software? ==> EndsWith(info, "-" + details.version)
    {
      var parts := [idGadget, description, severityType.Name(), Iso(dateReport)] + VariantFields(details);
      JoinStartsWith(parts, '-');
      JoinEndsWith(parts, '-');
      Join(parts, '-')
    }
  }

  /** The variant's text fields hold no dash, and the serial number has no minus sign. */
  predicate DetailsDashFree(details: Details)
  {
    match details
    case Hardware(componentType, serialNumber, _) => Free(componentType, '-') && serialNumber >= 0
    case Software(systemOperation, softwareName, version) =>
      Free(systemOperation, '-') && Free(softwareName, '-') && Free(version, '-')
  }

  /** No field carries a dash of its own except the ISO date. */
  predicate DashFree(r: Report)
    reads r
  {
    Free(r.idGadget, '-') && Free(r.description, '-') && DetailsDashFree(r.details)
  }

  lemma VariantFieldsDashFree(details: Details)
    requires DetailsDashFree(details)
    ensures forall i :: 0 <= i < |VariantFields(details)| ==> Free(VariantFields(details)[i], '-')
  {
    if details.Hardware? {
      var digits := IntString(details.serialNumber);
      assert AllDigits(digits);
      assert Free(digits, '-');
      assert Free(ReplaceText(details.hasToReplace), '-');
    }
  }

  /** Splitting a line whose only dashes are the separators and the date's own gives the fields with the date in three. */
  lemma SplitAroundDate(head: seq<string>, date: Date, tail: seq<string>)
    requires |head| > 0 && |tail| > 0
    requires forall i :: 0 <= i < |head| ==> Free(head[i], '-')
    requires forall i :: 0 <= i < |tail| ==> Free(tail[i], '-')
    ensures Split(Join(head + [Iso(date)] + tail, '-'), '-')
      == head + [ZeroPad(date.year, 4), ZeroPad(date.month, 2), ZeroPad(date.day, 2)] + tail
  {
    var iso := Iso(date);
    JoinConcat(head + [iso], tail, '-');
    JoinConcat(head, [iso], '-');
    assert Join([iso], '-') == iso;
    SplitAt(Join(head, '-') + "-" + iso, '-', Join(tail, '-'));
    SplitAt(Join(head, '-'), '-', iso);
    IsoSplit(date);
    SplitJoin(head, '-');
    SplitJoin(tail, '-');
  }

  /**
   * When the free-text fields hold no dash, splitting the rendered line at
   * its dashes gives back id, description, severity name, year, month, day
   * and the variant's three fields, in that order: the line loses nothing.
   */
  lemma InfoSplitsIntoFields(r: Report)
    requires DashFree(r)
    ensures var d := r.dateReport;
      Split(r.ReportInfo(), '-')
        == [r.idGadget, r.description, r.severityType.Name(), ZeroPad(d.year, 4), ZeroPad(d.month, 2), ZeroPad(d.day, 2)]
           + VariantFields(r.details)
  {
    var d := r.dateReport;
    var head := [r.idGadget, r.description, r.severityType.Name()];
    var tail := VariantFields(r.details);
    assert [r.idGadget, r.description, r.severityType.Name(), Iso(d)] + tail == head + [Iso(d)] + tail;
    assert r.ReportInfo() == Join(head + [Iso(d)] + tail, '-');
    assert Free(r.severityType.Name(), '-');
    VariantFieldsDashFree(r.details);
    SplitAroundDate(head, d, tail);
  }
}
