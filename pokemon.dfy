/**
 * The creature table: records keyed by their normalised name (`strip().lower()`), built row
 * by row from the data file and queried by name.
 */
module Pokemon {
  import opened Common
  import opened PyStr

  /** One data-file row as the CSV reader yields it: column name to cell text. */
  type Row = map<string, string>

  /** The columns of a row once converted: the numbers by `int()`, the types stripped and lowered. */
  datatype Stats = Stats(
    hp: int, attack: int, defense: int, spAttack: int, spDefense: int, speed: int,
    type1: string, type2: string)

  /** A stored creature: its name as the row spells it, the converted columns, and the raw row. */
  datatype Record = Record(name: string, stats: Stats, raw: Row)

  /** `row.get("name") or row.get("japanese_name") or ""`. */
  function RowName(row: Row): string {
    if "name" in row && row["name"] != "" then row["name"]
    else if "japanese_name" in row && row["japanese_name"] != "" then row["japanese_name"]
    else ""
  }

  /** The key a row is stored under. */
  function RowKey(row: Row): string {
    Normalize(RowName(row))
  }

  /** `int(row.get(column) or 0)`: a missing or empty cell reads as 0; `None` where `int()` raises. */
  function ColumnInt(row: Row, column: string): Option<int> {
    IntOrZero(GetOr(row, column, ""))
  }

  /** `(row.get(column) or "").strip().lower()`. */
  function ColumnText(row: Row, column: string): string {
    Normalize(GetOr(row, column, ""))
  }

  /** The six number columns `load_csv` converts with `int()`. */
  const NumberColumns: seq<string> := ["hp", "attack", "defense", "sp_attack", "sp_defense", "speed"]

  /**
   * The columns of a row as `load_csv` converts them, or `None` where one of the six
   * `int()` calls raises and the row is skipped.
   */
  function ConvertRow(row: Row): Option<Stats> {
    var hp := ColumnInt(row, "hp");
    var attack := ColumnInt(row, "attack");
    var defense := ColumnInt(row, "defense");
    var spAttack := ColumnInt(row, "sp_attack");
    var spDefense := ColumnInt(row, "sp_defense");
    var speed := ColumnInt(row, "speed");
    if hp.Some? && attack.Some? && defense.Some? && spAttack.Some? && spDefense.Some? && speed.Some? then
      Some(Stats(hp.value, attack.value, defense.value, spAttack.value, spDefense.value, speed.value,
                 ColumnText(row, "type1"), ColumnText(row, "type2")))
    else
      None
  }

  /** A row is skipped exactly when one of its six number cells does not convert. */
  lemma ConvertRowFails(row: Row)
    ensures ConvertRow(row).None? <==> exists c :: c in NumberColumns && ColumnInt(row, c).None?
  {
    if ConvertRow(row).None? {
      var c :| c in NumberColumns && ColumnInt(row, c).None?;
    }
  }

  /** Cells holding decimal numbers convert to those numbers: the row is kept with exactly them. */
  lemma ConvertRowValues(row: Row, hp: int, attack: int, defense: int, spAttack: int, spDefense: int, speed: int)
    requires GetOr(row, "hp", "") == IntToString(hp) && GetOr(row, "attack", "") == IntToString(attack)
    requires GetOr(row, "defense", "") == IntToString(defense)
    requires GetOr(row, "sp_attack", "") == IntToString(spAttack)
    requires GetOr(row, "sp_defense", "") == IntToString(spDefense)
    requires GetOr(row, "speed", "") == IntToString(speed)
    ensures ConvertRow(row) ==
      Some(Stats(hp, attack, defense, spAttack, spDefense, speed, ColumnText(row, "type1"), ColumnText(row, "type2")))
  {
    IntRoundTrip(hp);
    IntRoundTrip(attack);
    IntRoundTrip(defense);
    IntRoundTrip(spAttack);
    IntRoundTrip(spDefense);
    IntRoundTrip(speed);
  }

  /** Whether a row ends up in the table: its key is not empty and its columns convert. */
  predicate Kept(row: Row) {
    RowKey(row) != [] && ConvertRow(row).Some?
  }

  /** One pass of the row loop of `load_csv`. */
  function Insert(d: map<string, Record>, row: Row): map<string, Record> {
    var key := RowKey(row);
    if key == [] then d
    else match ConvertRow(row)
      case None => d
      case Some(st) => d[key := Record(RowName(row), st, row)]
  }

  /** The table the row loop builds from `d` over `rows`. */
  function LoadFrom(d: map<string, Record>, rows: seq<Row>): map<string, Record> {
    if rows == [] then d
    else Insert(LoadFrom(d, rows[..|rows| - 1]), rows[|rows| - 1])
  }

  /** The table `load_csv` returns for `rows`. */
  function Loaded(rows: seq<Row>): map<string, Record> {
    LoadFrom(map[], rows)
  }

  /** The row loop of `load_csv`: key each row, skip empty keys and rows that do not convert. */
  method LoadRows(rows: seq<Row>) returns (d: map<string, Record>)
    ensures d == Loaded(rows)
  {
    d := map[];
    for i := 0 to |rows|
      invariant d == Loaded(rows[..i])
    {
      var row := rows[i];
      assert rows[..i + 1][..i] == rows[..i];
      var name := RowName(row);
      var key := Normalize(name);
      if key == [] {
        continue;
      }
      var st := ConvertRow(row);
      if st.Some? {
        d := d[key := Record(name, st.value, row)];
      }
    }
    assert rows[..|rows|] == rows;
  }

  /** `get_pokemon(db, name)`. */
  function GetPokemon(db: map<string, Record>, name: Option<string>): (r: Option<Record>)
    ensures name.None? ==> r.None?
    ensures name.Some? ==> (r.Some? <==> Normalize(name.value) in db)
    ensures r.Some? ==> r.value == db[Normalize(name.value)]
  {
    match name
    case None => None
    case Some(n) => if Normalize(n) in db then Some(db[Normalize(n)]) else None
  }

  /** A table as `load_csv` builds it: every key is the normalised name of the record under it, and is not empty. */
  ghost predicate WellKeyed(d: map<string, Record>) {
    forall k :: k in d ==> k != [] && Normalize(d[k].name) == k
  }

  lemma {:induction false} LoadedWellKeyed(rows: seq<Row>)
    ensures WellKeyed(Loaded(rows))
  {
    if rows != [] {
      LoadedWellKeyed(rows[..|rows| - 1]);
    }
  }

  /** Loading `a + b` is loading `a`, then carrying on with `b`. */
  lemma {:induction false} LoadFromAppend(d: map<string, Record>, a: seq<Row>, b: seq<Row>)
    ensures LoadFrom(d, a + b) == LoadFrom(LoadFrom(d, a), b)
    decreases |b|
  {
    if b == [] {
      assert a + b == a;
    } else {
      assert (a + b)[..|a + b| - 1] == a + b[..|b| - 1];
      assert (a + b)[|a + b| - 1] == b[|b| - 1];
      LoadFromAppend(d, a, b[..|b| - 1]);
    }
  }

  /** Rows that are not kept (empty key, or a failed conversion) add nothing, wherever they stand. */
  lemma SkippedRow(a: seq<Row>, row: Row, b: seq<Row>)
    requires !Kept(row)
    ensures Loaded(a + [row] + b) == Loaded(a + b)
  {
    LoadFromAppend(map[], a + [row], b);
    LoadFromAppend(map[], a, [row]);
    assert [row][..0] == [];
    LoadFromAppend(map[], a, b);
  }

  /** A kept row stores its record under its key. */
  lemma InsertKept(d: map<string, Record>, row: Row)
    requires Kept(row)
    ensures RowKey(row) in Insert(d, row)
    ensures Insert(d, row)[RowKey(row)] == Record(RowName(row), ConvertRow(row).value, row)
  {
  }

  /** Any other key keeps its record across one row. */
  lemma InsertElsewhere(d: map<string, Record>, row: Row, k: string)
    requires k in d && (!Kept(row) || RowKey(row) != k)
    ensures k in Insert(d, row) && Insert(d, row)[k] == d[k]
  {
  }

  /** Rows whose key differs from `k`, or that are not kept, leave the record under `k` alone. */
  lemma {:induction false} LoadFromElsewhere(d: map<string, Record>, rows: seq<Row>, k: string)
    requires k in d
    requires forall j :: 0 <= j < |rows| && Kept(rows[j]) ==> RowKey(rows[j]) != k
    ensures k in LoadFrom(d, rows) && LoadFrom(d, rows)[k] == d[k]
  {
    if rows != [] {
      var init := rows[..|rows| - 1];
      forall j | 0 <= j < |init| && Kept(init[j]) ensures RowKey(init[j]) != k {
        assert init[j] == rows[j];
      }
      LoadFromElsewhere(d, init, k);
      InsertElsewhere(LoadFrom(d, init), rows[|rows| - 1], k);
    }
  }

  /**
   * The last kept row with a given key decides what is stored under it: a later row with the
   * same key replaces an earlier record.
   */
  lemma LastRowWins(rows: seq<Row>, i: nat)
    requires i < |rows| && Kept(rows[i])
    requires forall j :: i < j < |rows| && Kept(rows[j]) ==> RowKey(rows[j]) != RowKey(rows[i])
    ensures RowKey(rows[i]) in Loaded(rows)
    ensures Loaded(rows)[RowKey(rows[i])] == Record(RowName(rows[i]), ConvertRow(rows[i]).value, rows[i])
  {
    var k := RowKey(rows[i]);
    var upto, after := rows[..i + 1], rows[i + 1..];
    assert rows == upto + after;
    assert upto[..i] == rows[..i];
    var d := Insert(Loaded(rows[..i]), rows[i]);
    assert Loaded(upto) == d;
    InsertKept(Loaded(rows[..i]), rows[i]);
    forall j | 0 <= j < |after| && Kept(after[j]) ensures RowKey(after[j]) != k {
      assert after[j] == rows[i + 1 + j];
    }
    LoadFromElsewhere(d, after, k);
    LoadFromAppend(map[], upto, after);
  }

  /** Only kept rows put keys in the table. */
  lemma {:induction false} LoadedKeysFromRows(rows: seq<Row>, k: string)
    requires k in Loaded(rows)
    ensures exists i :: 0 <= i < |rows| && Kept(rows[i]) && RowKey(rows[i]) == k
  {
    var n := |rows|;
    var last := rows[n - 1];
    if Kept(last) && RowKey(last) == k {
      assert Kept(rows[n - 1]);
    } else {
      LoadedKeysFromRows(rows[..n - 1], k);
      var i :| 0 <= i < n - 1 && Kept(rows[..n - 1][i]) && RowKey(rows[..n - 1][i]) == k;
      assert rows[..n - 1][i] == rows[i];
    }
  }

  /** `get_pokemon` does not care about letter case or surrounding whitespace. */
  lemma GetPokemonInsensitive(db: map<string, Record>, name: string, variant: string, a: string, b: string)
    requires Lower(variant) == Lower(name) && AllSpace(a) && AllSpace(b)
    ensures GetPokemon(db, Some(a + variant + b)) == GetPokemon(db, Some(name))
  {
    NormalizeInsensitive(name, variant, a, b);
  }

  /**
   * Every record `load_csv` stores is found again by `get_pokemon` from its own name, in any
   * letter case and with any surrounding whitespace.
   */
  lemma StoredRecordFound(rows: seq<Row>, k: string, variant: string, a: string, b: string)
    requires k in Loaded(rows)
    requires Lower(variant) == Lower(Loaded(rows)[k].name) && AllSpace(a) && AllSpace(b)
    ensures GetPokemon(Loaded(rows), Some(a + variant + b)) == Some(Loaded(rows)[k])
  {
    var d := Loaded(rows);
    LoadedWellKeyed(rows);
    NormalizeInsensitive(d[k].name, variant, a, b);
  }
}
