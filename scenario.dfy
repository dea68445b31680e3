/**
 * A client of the store: one hardware and one software report for the same
 * equipment, queried and exported. The assertions follow from the
 * contracts alone.
 */
module Scenario {
  import opened Wrappers
  import opened Dates
  import opened Reports
  import opened Store

  lemma SelectPair(a: Report, b: Report, q: Query)
    ensures Select([a, b], q) == (if Satisfies(a, q) then [a] else []) + (if Satisfies(b, q) then [b] else [])
  {
    assert [a][..0] == [];
    assert Select([a], q) == (if Satisfies(a, q) then [a] else []);
    assert [a, b][..1] == [a];
  }

  lemma KindLinesPair(a: Report, b: Report, kind: Kind)
    ensures KindLines([a, b], kind)
      == (if a.details.KindOf() == kind then [a.ReportInfo()] else [])
       + (if b.details.KindOf() == kind then [b.ReportInfo()] else [])
  {
    assert [a][..0] == [];
    assert KindLines([a], kind) == (if a.details.KindOf() == kind then [a.ReportInfo()] else []);
    assert [a, b][..1] == [a];
  }

  lemma SameIdsPair(a: Report, b: Report)
    requires a.idGadget == b.idGadget
    ensures Dedup(IdsOf([a, b])) == [a.idGadget]
  {
    var ids := IdsOf([a, b]);
    assert ids == [a.idGadget, a.idGadget];
    assert ids[..1][..0] == [];
    assert Dedup(ids[..1]) == [a.idGadget];
  }

  /** A store holding a hardware report and then a software report for equipment "EQ1". */
  method TwoReportsOneEquipment() returns (store: Controller, hw: Report, sw: Report)
    ensures store.listReports == [hw, sw]
    ensures hw.idGadget == "EQ1" && hw.severityType == Bajo && hw.dateReport == Ymd(2024, 1, 10)
    ensures hw.details == Details.Hardware("fan", 42, false)
    ensures sw.idGadget == "EQ1" && sw.severityType == Alto && sw.dateReport == Ymd(2024, 2, 1)
    ensures sw.details == Details.Software("Linux", "app", "1.0.0")
  {
    store := new Controller(None);
    hw := new Report.Hardware("EQ1", "fan noise", Bajo, Ymd(2024, 1, 10), "fan", 42, false);
    sw := new Report.Software("EQ1", "crash", Alto, Ymd(2024, 2, 1), "Linux", "app", "1.0.0");
    store.AddReport(hw);
    store.AddReport(sw);
  }

  method QueriesFindBothInInsertionOrder()
  {
    var store, hw, sw := TwoReportsOneEquipment();
    var found := store.SearchReportsById("EQ1");
    SelectPair(hw, sw, ById("EQ1"));
    assert found == [hw, sw];
    var high := store.SearchBySeverityType(1);
    SelectPair(hw, sw, BySeverity(Alto));
    assert high == [sw];
    var none := store.SearchBySeverityType(7);
    assert none == [];
  }

  method SinceDateAndFullList()
  {
    var store, hw, sw := TwoReportsOneEquipment();
    var recent := store.SearchSinceDeterminateDate(Ymd(2024, 2, 1));
    SelectPair(hw, sw, SinceDate(Ymd(2024, 2, 1)));
    assert recent == [sw];
    var all := store.SearchSinceDeterminateDate(Ymd(2024, 1, 10));
    SelectPair(hw, sw, SinceDate(Ymd(2024, 1, 10)));
    assert all == [hw, sw];
    var reports := store.GetListReports();
    assert reports == [hw, sw];
  }

  method OneDistinctId()
  {
    var store, hw, sw := TwoReportsOneEquipment();
    var ids := store.GetEquipmentIds();
    SameIdsPair(hw, sw);
    assert ids == ["EQ1"];
  }

  method EarliestAndLatest()
  {
    var store, hw, sw := TwoReportsOneEquipment();
    var earliest := store.GetEarliestDate();
    assert OnOrBefore(earliest.value, store.listReports[0].dateReport);
    assert earliest == Some(Ymd(2024, 1, 10));
    var latest := store.GetLatestDate();
    assert OnOrBefore(store.listReports[1].dateReport, latest.value);
    assert latest == Some(Ymd(2024, 2, 1));
  }

  method HardwareExportHasOneLine()
  {
    var store, hw, sw := TwoReportsOneEquipment();
    var filename, lines := store.GenerateReport(HardwareKind, Ymd(2024, 2, 1));
    KindLinesPair(hw, sw, HardwareKind);
    assert lines == [Header(HardwareKind, Ymd(2024, 2, 1)), Separator, hw.ReportInfo()];
  }

  method EmptyStore()
  {
    var store := new Controller(None);
    var found := store.SearchReportsById("EQ1");
    assert found == [];
    var high := store.SearchBySeverityType(1);
    assert high == [];
    var recent := store.SearchSinceDeterminateDate(Ymd(2024, 2, 1));
    assert recent == [];
    var reports := store.GetListReports();
    assert reports == [];
    var ids := store.GetEquipmentIds();
    assert ids == [];
    var earliest := store.GetEarliestDate();
    assert earliest == None;
    var latest := store.GetLatestDate();
    assert latest == None;
  }
}
