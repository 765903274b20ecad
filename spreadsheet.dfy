/**
 * The results spreadsheet: the active sheet of the workbook, as a list of
 * rows, and the rule by which a bracket draw is appended to it.
 */
module Spreadsheet {
  import opened Bracket

  /** The header row written on a sheet that is still empty. */
  const Header: seq<string> := ["Jogador 1", "Jogador 2"]

  /** The sheet row recording one matchup: the two players' names. */
  function MatchRow(p: Pairing): seq<string> {
    [p.home.name, p.away.name]
  }

  /** `max_row` of a sheet: a sheet holding no row still reports 1. */
  function MaxRow(rows: seq<seq<string>>): nat {
    if |rows| == 0 then 1 else |rows|
  }

  /** The sheet after appending one match row per pairing, front to back. */
  function AppendMatches(rows: seq<seq<string>>, pairs: seq<Pairing>): seq<seq<string>>
    decreases |pairs|
  {
    if pairs == [] then rows
    else AppendMatches(rows + [MatchRow(pairs[0])], pairs[1..])
  }

  /** The sheet after a draw: a header when `max_row == 1`, then the match rows. */
  function Written(rows: seq<seq<string>>, pairs: seq<Pairing>): seq<seq<string>> {
    AppendMatches(if MaxRow(rows) == 1 then rows + [Header] else rows, pairs)
  }

  /** Appending match rows keeps every earlier row and adds exactly one row per pairing, in order. */
  lemma {:induction false} AppendMatchesShape(rows: seq<seq<string>>, pairs: seq<Pairing>)
    ensures var w := AppendMatches(rows, pairs);
      |w| == |rows| + |pairs| && w[..|rows|] == rows &&
      forall i :: 0 <= i < |pairs| ==> w[|rows| + i] == [pairs[i].home.name, pairs[i].away.name]
    decreases |pairs|
  {
    if pairs != [] {
      var next := rows + [MatchRow(pairs[0])];
      AppendMatchesShape(next, pairs[1..]);
      var w := AppendMatches(rows, pairs);
      assert w[..|rows|] == next[..|next|][..|rows|];
      forall i | 0 <= i < |pairs|
        ensures w[|rows| + i] == [pairs[i].home.name, pairs[i].away.name]
      {
        if i > 0 {
          assert w[|next| + (i - 1)] == MatchRow(pairs[1..][i - 1]);
        } else {
          assert w[..|next|] == next;
        }
      }
    }
  }

  /**
   * The append rule: earlier rows are kept, the header is added exactly when
   * the sheet holds at most one row, and then one row per pairing follows,
   * in pairing order.
   */
  lemma WrittenShape(rows: seq<seq<string>>, pairs: seq<Pairing>)
    ensures var h := if |rows| <= 1 then 1 else 0;
      var w := Written(rows, pairs);
      |w| == |rows| + h + |pairs| && w[..|rows|] == rows &&
      (h == 1 ==> w[|rows|] == ["Jogador 1", "Jogador 2"]) &&
      forall i :: 0 <= i < |pairs| ==> w[|rows| + h + i] == [pairs[i].home.name, pairs[i].away.name]
  {
    var start := if MaxRow(rows) == 1 then rows + [Header] else rows;
    AppendMatchesShape(start, pairs);
    var w := Written(rows, pairs);
    assert w[..|rows|] == w[..|start|][..|rows|];
  }

  /**
   * A draw with no players writes only the header; the sheet then holds one
   * row, so the next draw writes the header a second time.
   */
  lemma HeaderRepeatsAfterEmptyDraw(pairs: seq<Pairing>)
    ensures Written([], []) == [Header]
    ensures |Written(Written([], []), pairs)| == 2 + |pairs|
    ensures Written(Written([], []), pairs)[..2] == [Header, Header]
  {
    WrittenShape([Header], pairs);
  }

  /** The active sheet of the workbook. */
  class Sheet {
    var rows: seq<seq<string>>

    /** A new workbook's sheet (no rows), or a loaded one holding `existing`. */
    constructor (existing: seq<seq<string>>)
      ensures rows == existing
    {
      rows := existing;
    }

    /** `sheet.append(row)`: the row goes after the last one. */
    method Append(row: seq<string>)
      modifies this
      ensures rows == old(rows) + [row]
    {
      rows := rows + [row];
    }

    /** Writes one draw's matchups: a header if `max_row == 1`, then a row per matchup. */
    method WriteMatchups(pairs: seq<Pairing>)
      modifies this
      ensures rows == Written(old(rows), pairs)
    {
      if MaxRow(rows) == 1 {
        Append(Header);
      }
      for i := 0 to |pairs|
        invariant AppendMatches(rows, pairs[i..]) == Written(old(rows), pairs)
      {
        assert pairs[i..][1..] == pairs[i + 1..];
        Append(MatchRow(pairs[i]));
      }
      assert pairs[|pairs|..] == [];
    }
  }
}
