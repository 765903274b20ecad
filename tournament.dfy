/** The tournament draw: read the players, pair them, record the pairs. */
module Tournament {
  import opened Common
  import opened Players
  import opened Bracket
  import opened Spreadsheet

  /**
   * `shuffled` is the shuffled list of the stored (name, team) records. An odd
   * count is rejected and the sheet is left alone; otherwise N/2 matchups are
   * drawn, the i-th pairing shuffled[i] with shuffled[i + N/2], using every
   * stored player once, and appended to the sheet. The
   * player table is only read.
   */
  method DrawTournament(table: PlayerTable, sheet: Sheet, shuffled: seq<Entry>)
    returns (r: Result<seq<Pairing>>)
    requires multiset(shuffled) == multiset(Entries(table.rows))
    modifies sheet
    ensures |shuffled| == |table.rows|
    ensures |table.rows| % 2 != 0 ==> r == Err(OddPlayerCount) && sheet.rows == old(sheet.rows)
    ensures |table.rows| % 2 == 0 ==>
      r.Ok? && |r.value| == |table.rows| / 2 &&
      (forall i :: 0 <= i < |r.value| ==> r.value[i] == Pairing(shuffled[i], shuffled[i + |shuffled| / 2])) &&
      Members(r.value) == multiset(Entries(table.rows)) &&
      sheet.rows == Written(old(sheet.rows), r.value)
  {
    assert |shuffled| == |table.rows| by {
      assert |multiset(shuffled)| == |shuffled|;
      assert |multiset(Entries(table.rows))| == |Entries(table.rows)|;
    }
    r := Draw(shuffled);
    if r.Ok? {
      sheet.WriteMatchups(r.value);
    }
  }
}
