# torneio_fifa: tournament draw engine, modelled in Dafny

`torneio_fifa` is a small Flask application for a casual FIFA tournament.
Players register into a `jogadores` table (`id`, `nome`, `time`,
`ordem_escolha`). Each player picks a team (`time`). A pick-order draw
shuffles the players and stores each player's rank (`ordem_escolha`). A
tournament draw shuffles the players, cuts the list in half into bracket A
(`chave_a`) and bracket B (`chave_b`), and pairs A[i] with B[i]. It then
appends the pairs to an Excel sheet.

This project models that core:

- `common.dfy`, module `Common`: `Option` (a nullable column), the one
  validation error `OddPlayerCount`, and `Result`.
- `ranking.dfy`, module `Ranking`: the dictionary comprehension
  `{nome: idx + 1 ...}` as `RankMap`. It is built one insertion per position,
  so a repeated name keeps its later position.
- `players.dfy`, module `Players`: the table rows (`Row`), the two SQL
  `UPDATE ... WHERE nome = ?` statements as functions, and the class
  `PlayerTable`. Its methods change the stored rows in place: `Register`
  (`cadastrar_jogador`), `ChooseTeam` (`escolher_time`) and `DrawPickOrder`
  (`sortear_ordem_escolha`). `DrawPickOrder` keeps the source's loop over the
  rank map, with one UPDATE per entry.
- `bracket.dfy`, module `Bracket`: the cut at N/2 (`Split`), the pairing loop
  (`PairUp`) and the draw on a shuffled list (`Draw`).
- `spreadsheet.dfy`, module `Spreadsheet`: the active sheet as a class over a
  list of rows. `WriteMatchups` is `gerar_excel`'s append rule.
- `tournament.dfy`, module `Tournament`: `sortear_torneio`. It reads the
  table, draws the matchups and appends them to the sheet.

Naming: the source's columns `nome`, `time` and `ordem_escolha` are the fields
`name`, `team` and `pickOrder`. A (`nome`, `time`) record is an `Entry`, and
a `confronto` is a `Pairing(home, away)`.

`random.shuffle` is not modelled as a function. Each draw instead takes the
shuffled list as a parameter. It must be a permutation of what the table
holds: `multiset(shuffled) == multiset(Names(rows))`, or the same with
`Entries(rows)`. So every property below holds for every possible shuffle.

Two behaviours of the code worth knowing:

- The rank dictionary is built one position at a time
  (torneio_fifa/fifa.py:66). With a repeated name, the later position's rank
  overwrites the earlier one, so the earlier rank is given to nobody. Every
  row carrying that name gets the same rank (`DrawnRanks`,
  `RepeatedNameExample`). With distinct names the ranks are exactly 1..N
  (`RanksAreOneToN`).
- The header is written whenever the sheet reports `max_row == 1`
  (torneio_fifa/fifa.py:129-130): on an empty sheet, or on one holding a
  single row. A draw with no players (an even count) writes only the header,
  and the next draw writes it again (`HeaderRepeatsAfterEmptyDraw`).

## Model

| member | source | states |
|---|---|---|
| `Ranking.RankMap` | torneio_fifa/fifa.py:65-66 | the rank map's keys are exactly the names in the shuffled list, and every rank lies in 1..N |
| `Ranking.RankIsLastOccurrence` | torneio_fifa/fifa.py:66 | a name's rank k satisfies shuffled[k-1] == name, and the name does not occur after position k: the later occurrence wins |
| `Ranking.RanksAreInjective` | torneio_fifa/fifa.py:66 | two different names never receive the same rank, even when names repeat |
| `Ranking.RankOfDistinct` | torneio_fifa/fifa.py:66 | with distinct names, the name at position i gets rank i+1 |
| `Ranking.RanksAreOneToN` | torneio_fifa/fifa.py:64-66 | with distinct names, the set of ranks is exactly {1..N} |
| `Ranking.RepeatedNameExample` | torneio_fifa/fifa.py:66 | ["Ana","Bia","Ana"] gives Ana rank 3 and Bia rank 2; rank 1 is given to nobody |
| `Players.WithTeam` | torneio_fifa/fifa.py:89-93 | the team UPDATE sets `team` on every row with the given name; other rows are unchanged; id, name and pick order of every row are kept; the row count is kept |
| `Players.WithPickOrder` | torneio_fifa/fifa.py:72-76 | one rank UPDATE sets the pick order on every row with that name; other rows and the other fields are unchanged |
| `Players.WithRanks` | torneio_fifa/fifa.py:71-76 | after the updates, every row whose name is a key holds that key's rank; rows with no key are unchanged; id, name and team are kept; the row count is kept |
| `Players.ChooseTeamIdempotent` | torneio_fifa/fifa.py:87-94 | choosing the same team twice gives the same table as choosing it once |
| `Players.ChooseTeamLastWins` | torneio_fifa/fifa.py:89-93 | of two team choices for one name, the table keeps the later one |
| `Players.DrawnRanks` | torneio_fifa/fifa.py:58-76 | for every shuffle of the stored names, every row gets a rank in 1..N, and two rows share a rank exactly when they share a name |
| `Players.PlayerTable.constructor` | torneio_fifa/fifa.py:19-30 | a new table is empty, and its AUTOINCREMENT counter starts at 1 |
| `Players.PlayerTable.Register` | torneio_fifa/fifa.py:42-48 | appends exactly one row with the given name, team and pick order, and an id that no existing row has; earlier rows are unchanged |
| `Players.PlayerTable.ChooseTeam` | torneio_fifa/fifa.py:82-96 | the stored rows become `WithTeam` of the old rows; the id counter is unchanged |
| `Players.PlayerTable.DrawPickOrder` | torneio_fifa/fifa.py:55-79 | with an odd count: an error, and the table is unchanged; otherwise it returns the rank map of the shuffle, and the rows become `WithRanks` of the old rows under that map, whatever order the map's entries are written in |
| `Bracket.Split` | torneio_fifa/fifa.py:110-111 | bracket A followed by bracket B is the shuffled list; A has N/2 players; with N even, both brackets have N/2 |
| `Bracket.PairUp` | torneio_fifa/fifa.py:113-118 | one pairing per player of bracket A, and pairing i is (A[i], B[i]) |
| `Bracket.MembersOfPairing` | torneio_fifa/fifa.py:113-118 | pairing two equal-length lists index-wise uses every player of both lists exactly once (as a multiset) |
| `Bracket.Draw` | torneio_fifa/fifa.py:106-118 | an error exactly when N is odd; otherwise N/2 pairings, pairing i is (shuffled[i], shuffled[i+N/2]), and the multiset of players across the pairings equals the shuffled list's |
| `Spreadsheet.AppendMatchesShape` | torneio_fifa/fifa.py:132-133 | appending match rows keeps the earlier rows and adds one [home name, away name] row per pairing, in pairing order |
| `Spreadsheet.WrittenShape` | torneio_fifa/fifa.py:129-133 | earlier rows are kept; the header ['Jogador 1','Jogador 2'] is added exactly when the sheet holds at most one row; then one row per pairing follows, in order |
| `Spreadsheet.HeaderRepeatsAfterEmptyDraw` | torneio_fifa/fifa.py:129-130 | a draw with no pairings on an empty sheet writes only the header, and the next draw writes the header again |
| `Spreadsheet.Sheet.constructor` | torneio_fifa/fifa.py:126-127 | the active sheet holds the rows of the loaded workbook (none for a new one) |
| `Spreadsheet.Sheet.Append` | torneio_fifa/fifa.py:130-133 | `append` adds its row after the last row |
| `Spreadsheet.Sheet.WriteMatchups` | torneio_fifa/fifa.py:125-135 | the sheet becomes `Written` of the old sheet: the header rule, then one row per pairing |
| `Tournament.DrawTournament` | torneio_fifa/fifa.py:100-121 | with an odd count: an error, and the sheet is unchanged; otherwise N/2 pairings, pairing i is (shuffled[i], shuffled[i+N/2]), using every stored (name, team) record once, appended to the sheet by the header-and-rows rule; the player table is only read |

## Left out

- HTTP routing, reading the JSON request, and the JSON responses with their
  status codes (400 and 500) are not modelled. The error is the `Result`
  value `Err(OddPlayerCount)`. A request without `nome` fails with a
  `KeyError` in the source; the model takes the name as a parameter.
- SQLite connections and schema creation are replaced by the in-memory row
  sequence. The AUTOINCREMENT counter is a field (`nextId`). Storage failures
  and the blanket exception handler in `cadastrar_jogador` are not modelled.
- openpyxl workbook load and save, and the check for whether the file exists,
  are not modelled. The sheet is a list of rows. Its `max_row` is taken to be
  1 for a sheet with no rows and its row count otherwise.
- `random.shuffle` is a library call with randomness. The shuffled list is a
  parameter, required to be a permutation of the stored rows.
- Python dict iteration order: `DrawPickOrder` writes the entries of the rank
  map in an arbitrary order, not insertion order. Its `ensures` holds for
  every order, so this covers the source's order.
- The browser launch, the `threading.Timer`, `app.run` and the HTML page with
  its script are not modelled. They are UI and process start-up.
- Each request is modelled as one uninterrupted step. In the source a draw
  reads the table on one connection and writes on another
  (torneio_fifa/fifa.py:56-77, 101-135), and the development server can
  handle requests concurrently. Interleaved requests, such as a registration
  between the read and the rank updates, are not modelled. Neither is the
  absence of any lock or transaction spanning a request.
