/** A worked example of the file intake. */
module Scenarios {
  import Dashboard
  import Seqs

  /** Dropping `report.csv` and `report.xlsx` on an empty queue queues only `report.xlsx`. */
  lemma IntakeExample(s: Dashboard.State)
    requires s.files == []
    ensures Dashboard.Drop(s, [Dashboard.File(1, "report.csv"), Dashboard.File(2, "report.xlsx")]).files
            == [Dashboard.File(2, "report.xlsx")]
  {
    var csv := Dashboard.File(1, "report.csv");
    var xlsx := Dashboard.File(2, "report.xlsx");
    assert !Dashboard.IsSpreadsheet(csv) by {
      assert csv.name[|csv.name| - 5..] == "t.csv";
      assert csv.name[|csv.name| - 4..] == ".csv";
    }
    assert Dashboard.IsSpreadsheet(xlsx) by {
      assert xlsx.name[|xlsx.name| - 5..] == ".xlsx";
    }
    var both := [csv, xlsx];
    assert both[1..] == [xlsx] && [xlsx][1..] == [];
    assert Seqs.Filter(both, Dashboard.IsSpreadsheet) == [xlsx];
  }
}
