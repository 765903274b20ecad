/**
 * The player table `jogadores` (columns id, nome, time, ordem_escolha) and
 * the three operations that change it: registering a player, choosing a
 * team, and drawing the pick order.
 */
module Players {
  import opened Common
  import Ranking

  /** One row of the table; `name`, `team`, `pickOrder` are the columns nome, time, ordem_escolha. */
  datatype Row = Row(id: int, name: string, team: Option<string>, pickOrder: Option<int>)

  /** The (nome, time) record that the tournament draw selects from each row. */
  datatype Entry = Entry(name: string, team: Option<string>)

  /** `SELECT nome FROM jogadores`, in row order. */
  function Names(rows: seq<Row>): seq<string> {
    seq(|rows|, i requires 0 <= i < |rows| => rows[i].name)
  }

  /** `SELECT nome, time FROM jogadores`, in row order. */
  function Entries(rows: seq<Row>): seq<Entry> {
    seq(|rows|, i requires 0 <= i < |rows| => Entry(rows[i].name, rows[i].team))
  }

  /** `UPDATE jogadores SET time = team WHERE nome = name`. */
  function WithTeam(rows: seq<Row>, name: string, team: Option<string>): (r: seq<Row>)
    ensures |r| == |rows|
    ensures forall i :: 0 <= i < |rows| ==>
      r[i].id == rows[i].id && r[i].name == rows[i].name && r[i].pickOrder == rows[i].pickOrder
    ensures forall i :: 0 <= i < |rows| && rows[i].name == name ==> r[i].team == team
    ensures forall i :: 0 <= i < |rows| && rows[i].name != name ==> r[i] == rows[i]
  {
    seq(|rows|, i requires 0 <= i < |rows| =>
      if rows[i].name == name then rows[i].(team := team) else rows[i])
  }

  /** `UPDATE jogadores SET ordem_escolha = rank WHERE nome = name`. */
  function WithPickOrder(rows: seq<Row>, name: string, rank: int): (r: seq<Row>)
    ensures |r| == |rows|
    ensures forall i :: 0 <= i < |rows| ==>
      r[i].id == rows[i].id && r[i].name == rows[i].name && r[i].team == rows[i].team
    ensures forall i :: 0 <= i < |rows| && rows[i].name == name ==> r[i].pickOrder == Some(rank)
    ensures forall i :: 0 <= i < |rows| && rows[i].name != name ==> r[i] == rows[i]
  {
    seq(|rows|, i requires 0 <= i < |rows| =>
      if rows[i].name == name then rows[i].(pickOrder := Some(rank)) else rows[i])
  }

  /** The table after one UPDATE per entry of `ranks`, in any order. */
  function WithRanks(rows: seq<Row>, ranks: map<string, int>): (r: seq<Row>)
    ensures |r| == |rows|
    ensures forall i :: 0 <= i < |rows| ==>
      r[i].id == rows[i].id && r[i].name == rows[i].name && r[i].team == rows[i].team
    ensures forall i :: 0 <= i < |rows| && rows[i].name in ranks ==> r[i].pickOrder == Some(ranks[rows[i].name])
    ensures forall i :: 0 <= i < |rows| && rows[i].name !in ranks ==> r[i] == rows[i]
  {
    seq(|rows|, i requires 0 <= i < |rows| =>
      if rows[i].name in ranks then rows[i].(pickOrder := Some(ranks[rows[i].name])) else rows[i])
  }

  /** Choosing the same team twice leaves the table as choosing it once. */
  lemma ChooseTeamIdempotent(rows: seq<Row>, name: string, team: Option<string>)
    ensures WithTeam(WithTeam(rows, name, team), name, team) == WithTeam(rows, name, team)
  {
  }

  /** Of two team choices for the same name, the later one is what the table keeps. */
  lemma ChooseTeamLastWins(rows: seq<Row>, name: string, first: Option<string>, second: Option<string>)
    ensures WithTeam(WithTeam(rows, name, first), name, second) == WithTeam(rows, name, second)
  {
  }

  /**
   * After a pick-order draw every row holds a rank in 1..N, and two rows hold
   * the same rank exactly when they carry the same name.
   */
  lemma DrawnRanks(rows: seq<Row>, shuffled: seq<string>)
    requires multiset(shuffled) == multiset(Names(rows))
    ensures var out := WithRanks(rows, Ranking.RankMap(shuffled));
      (forall i :: 0 <= i < |rows| ==>
         out[i].pickOrder.Some? && 1 <= out[i].pickOrder.value <= |rows|) &&
      (forall i, j :: 0 <= i < |rows| && 0 <= j < |rows| ==>
         (out[i].pickOrder == out[j].pickOrder <==> rows[i].name == rows[j].name))
  {
    var ranks := Ranking.RankMap(shuffled);
    var out := WithRanks(rows, ranks);
    assert |shuffled| == |rows| by {
      assert |multiset(shuffled)| == |shuffled|;
      assert |multiset(Names(rows))| == |Names(rows)|;
    }
    forall i | 0 <= i < |rows| ensures rows[i].name in shuffled {
      assert Names(rows)[i] == rows[i].name;
      assert rows[i].name in multiset(Names(rows));
    }
    forall i, j | 0 <= i < |rows| && 0 <= j < |rows| && rows[i].name != rows[j].name
      ensures out[i].pickOrder != out[j].pickOrder
    {
      Ranking.RanksAreInjective(shuffled, rows[i].name, rows[j].name);
    }
  }

  /**
   * The stored table. `nextId` is the AUTOINCREMENT counter: ids are handed out
   * in increasing order starting at 1, and rows are never deleted.
   */
  class PlayerTable {
    var rows: seq<Row>
    var nextId: int

    ghost predicate Valid()
      reads this
    {
      1 <= nextId &&
      (forall i :: 0 <= i < |rows| ==> 1 <= rows[i].id < nextId) &&
      (forall i, j :: 0 <= i < j < |rows| ==> rows[i].id < rows[j].id)
    }

    /** The freshly created, empty table. */
    constructor ()
      ensures Valid() && rows == [] && nextId == 1
    {
      rows := [];
      nextId := 1;
    }

    /** Registration: `INSERT INTO jogadores (nome, time, ordem_escolha)`. */
    method Register(name: string, team: Option<string>, pickOrder: Option<int>)
      requires Valid()
      modifies this
      ensures Valid()
      ensures rows == old(rows) + [Row(old(nextId), name, team, pickOrder)]
      ensures forall i :: 0 <= i < |old(rows)| ==> rows[i].id != rows[|old(rows)|].id
    {
      rows := rows + [Row(nextId, name, team, pickOrder)];
      nextId := nextId + 1;
    }

    /** Team choice: sets the team of every row carrying `name`. */
    method ChooseTeam(name: string, team: Option<string>)
      requires Valid()
      modifies this
      ensures Valid() && nextId == old(nextId)
      ensures rows == WithTeam(old(rows), name, team)
    {
      rows := WithTeam(rows, name, team);
    }

    /**
     * Pick-order draw. `shuffled` is the shuffled list of the stored names.
     * An odd count is rejected and nothing changes; otherwise every entry of
     * the rank map is written to the rows carrying that name.
     */
    method DrawPickOrder(shuffled: seq<string>) returns (r: Result<map<string, int>>)
      requires Valid()
      requires multiset(shuffled) == multiset(Names(rows))
      modifies this
      ensures Valid() && nextId == old(nextId)
      ensures |old(rows)| % 2 != 0 ==> r == Err(OddPlayerCount) && rows == old(rows)
      ensures |old(rows)| % 2 == 0 ==>
        r == Ok(Ranking.RankMap(shuffled)) && rows == WithRanks(old(rows), r.value)
    {
      if |rows| % 2 != 0 {
        return Err(OddPlayerCount);
      }
      var ranks := Ranking.RankMap(shuffled);
      ghost var before := rows;
      var pending := ranks.Keys;
      while pending != {}
        invariant pending <= ranks.Keys
        invariant nextId == old(nextId) && |rows| == |before|
        invariant forall i :: 0 <= i < |before| ==>
          rows[i] == if before[i].name in ranks && before[i].name !in pending
                     then before[i].(pickOrder := Some(ranks[before[i].name]))
                     else before[i]
        decreases pending
      {
        var name :| name in pending;
        rows := WithPickOrder(rows, name, ranks[name]);
        pending := pending - {name};
      }
      r := Ok(ranks);
    }
  }
}
