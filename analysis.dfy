/** The pure part of the consumer script: how the buffered records become a
    table (`pd.DataFrame`), how each temperature text becomes a number or
    nothing, which rows survive `dropna`, and how `generate_chart` splits the
    surviving rows into one series per city. */
module Analysis {
  import opened Strings

  /** A JSON value of one field of a decoded message. The producer only ever
      writes strings; JSON `null` is kept because it behaves differently from a
      missing key. */
  datatype Json = JNull | JString(s: string)

  /** One decoded message: a JSON object. */
  type Record = map<string, Json>

  /** A cell of the table built from the buffer. A key missing from a record
      becomes NaN, a JSON `null` becomes `None`, a string stays a string. */
  datatype Cell = Nan | Null | Text(s: string)

  /** What `float(...)` makes of a text: it raises, it yields NaN (the text
      "nan"), or it yields a number. The number itself is not modelled. */
  datatype FloatParse = NotAFloat | FloatNaN | FloatNumber

  /** What the temperature lambda followed by `dropna` makes of one cell: the
      lambda raises, the row is dropped, or the row is kept with the text the
      number was parsed from. */
  datatype Temp = Raises | Dropped | Kept(text: string)

  /** Why building a snapshot raised. */
  datatype Failure = MissingColumn(name: string) | UnparsableTimestamp | UnusableTemperature

  /** One row of the filtered table: city cell, timestamp cell (None and NaN
      both become NaT), and the text of the parsed temperature. */
  datatype Row = Row(city: Cell, timestamp: Cell, temperature: string)

  /** The result of one snapshot build. */
  datatype Snapshot = Failed(reason: Failure) | Built(rows: seq<Row>)

  /** One line of the chart: a city and its rows. */
  datatype Series = Series(city: Cell, rows: seq<Row>)

  /** One chart file: its number and its series. */
  datatype Chart = Chart(number: nat, series: seq<Series>)

  /** The library behaviour the scripts lean on, left abstract: Python's
      `float` on a text, whether `pd.to_datetime` accepts a text, and whether
      plotting and saving a chart succeeds. */
  datatype Lib = Lib(parseFloat: string -> FloatParse, isTime: string -> bool, renderOk: Chart -> bool)

  /** The cell a record contributes to the column `key`. */
  function CellOf(r: Record, key: string): (c: Cell)
    ensures c == Nan <==> key !in r
    ensures c == Null <==> key in r && r[key] == JNull
    ensures c.Text? ==> key in r && r[key] == JString(c.s)
  {
    if key !in r then Nan
    else match r[key]
      case JNull => Null
      case JString(s) => Text(s)
  }

  /** Whether the table built from `buffer` has a column `key`: some record has the key. */
  predicate HasColumn(buffer: seq<Record>, key: string)
    ensures HasColumn(buffer, key) ==> buffer != []
  {
    exists i | 0 <= i < |buffer| :: key in buffer[i]
  }

  /** Without a column `key`, every cell of that column is NaN, and a column
      present in a buffer stays present in any longer buffer. */
  lemma ColumnMissing(buffer: seq<Record>, more: seq<Record>, key: string)
    ensures !HasColumn(buffer, key) <==> forall i | 0 <= i < |buffer| :: CellOf(buffer[i], key) == Nan
    ensures HasColumn(buffer, key) ==> HasColumn(buffer + more, key)
  {
    if HasColumn(buffer, key) {
      var i :| 0 <= i < |buffer| && key in buffer[i];
      assert (buffer + more)[i] == buffer[i];
    }
  }

  /** The temperature lambda, `float(x.split('/')[0]) if x and x.split('/')[0] else None`,
      followed by `dropna`. NaN is truthy and has no `split`, so a missing key
      raises; `None` and the empty text are falsy; an empty left segment gives
      `None`; a left segment `float` rejects raises; one that parses to NaN is
      dropped. */
  function Temperature(c: Cell, lib: Lib): (t: Temp)
    ensures t.Kept? ==> c.Text? && t.text != [] && t.text <= c.s && '/' !in t.text
    ensures c.Null? || c == Text("") ==> t == Dropped
  {
    match c
    case Nan => Raises
    case Null => Dropped
    case Text(s) =>
      if s == [] then Dropped
      else
        var left := Before(s, '/');
        if left == [] then Dropped
        else match lib.parseFloat(left)
          case NotAFloat => Raises
          case FloatNaN => Dropped
          case FloatNumber => Kept(left)
  }

  /** A row survives exactly when its text is non-empty, its text before the
      first `/` is non-empty, and `float` turns that segment into a number;
      the kept text is that segment. */
  lemma TemperatureKept(c: Cell, lib: Lib, t: string)
    ensures Temperature(c, lib) == Kept(t) <==>
            c.Text? && t == Before(c.s, '/') && t != [] && lib.parseFloat(t) == FloatNumber
  {
  }

  /** The lambda raises exactly on a missing key and on a non-empty left
      segment that `float` rejects. */
  lemma TemperatureRaises(c: Cell, lib: Lib)
    ensures Temperature(c, lib).Raises? <==>
            c.Nan? || (c.Text? && Before(c.s, '/') != [] && lib.parseFloat(Before(c.s, '/')).NotAFloat?)
  {
  }

  /** The extractor on the texts the producer writes: `"18/9"` gives the
      segment `"18"`, `"/9"`, `"/"` and `""` are dropped, `"abc/9"` raises. */
  lemma TemperatureExamples(lib: Lib)
    requires lib.parseFloat("18") == FloatNumber && lib.parseFloat("abc") == NotAFloat
    ensures Temperature(Text("18/9"), lib) == Kept("18")
    ensures Temperature(Text("/9"), lib) == Dropped
    ensures Temperature(Text("/"), lib) == Dropped
    ensures Temperature(Text(""), lib) == Dropped
    ensures Temperature(Text("abc/9"), lib) == Raises
  {
    BeforeJoin("18", '/', "9");
    BeforeJoin("", '/', "9");
    BeforeJoin("", '/', "");
    assert "abc/9" == "abc" + ['/'] + "9";
    BeforeJoin("abc", '/', "9");
  }

  /** `pd.to_datetime` raises on this record's timestamp. */
  predicate BadTimestamp(r: Record, lib: Lib)
  {
    var c := CellOf(r, "timestamp");
    c.Text? && !lib.isTime(c.s)
  }

  /** A record that makes every snapshot build containing it raise. */
  predicate Poisoned(r: Record, lib: Lib)
  {
    BadTimestamp(r, lib) || Temperature(CellOf(r, "temperature"), lib).Raises?
  }

  /** The rows one record contributes to the filtered table. */
  function RowsOf(r: Record, lib: Lib): (rows: seq<Row>)
    ensures |rows| <= 1
    ensures rows != [] <==> Temperature(CellOf(r, "temperature"), lib).Kept?
    ensures rows != [] ==> rows[0].city == CellOf(r, "city") && rows[0].timestamp == CellOf(r, "timestamp")
  {
    match Temperature(CellOf(r, "temperature"), lib)
    case Kept(t) => [Row(CellOf(r, "city"), CellOf(r, "timestamp"), t)]
    case _ => []
  }

  /** The rows of the filtered table, in buffer order. */
  function Rows(buffer: seq<Record>, lib: Lib): (rows: seq<Row>)
    ensures |rows| <= |buffer|
    ensures forall k | 0 <= k < |rows| :: rows[k].temperature != [] && '/' !in rows[k].temperature
  {
    if buffer == [] then [] else RowsOf(buffer[0], lib) + Rows(buffer[1..], lib)
  }

  /** The snapshot build: the table of the whole buffer, its timestamp
      column converted (a missing column or a rejected text raises), its
      temperature column mapped through the lambda (a missing column or a
      raising cell raises), and the rows without a temperature dropped. */
  function Build(buffer: seq<Record>, lib: Lib): (s: Snapshot)
    ensures s.Built? <==> HasColumn(buffer, "timestamp") && forall i | 0 <= i < |buffer| :: !Poisoned(buffer[i], lib)
    ensures s.Built? ==> s.rows == Rows(buffer, lib)
  {
    if !HasColumn(buffer, "timestamp") then Failed(MissingColumn("timestamp"))
    else if exists i | 0 <= i < |buffer| :: BadTimestamp(buffer[i], lib) then Failed(UnparsableTimestamp)
    else if !HasColumn(buffer, "temperature") then
      assert CellOf(buffer[0], "temperature") == Nan;
      Failed(MissingColumn("temperature"))
    else if exists i | 0 <= i < |buffer| :: Temperature(CellOf(buffer[i], "temperature"), lib).Raises? then
      Failed(UnusableTemperature)
    else Built(Rows(buffer, lib))
  }

  /** The rows of a longer buffer extend the rows of its prefix: a rebuild
      from the whole buffer adds the new records' rows after the old ones. */
  lemma {:induction false} RowsAppend(a: seq<Record>, b: seq<Record>, lib: Lib)
    ensures Rows(a + b, lib) == Rows(a, lib) + Rows(b, lib)
  {
    if a == [] {
      assert a + b == b;
    } else {
      assert (a + b)[1..] == a[1..] + b;
      RowsAppend(a[1..], b, lib);
    }
  }

  /** A row is in the snapshot exactly when some buffered record has a kept
      temperature and that row's city, timestamp and temperature segment. */
  lemma {:induction false} RowsExact(buffer: seq<Record>, lib: Lib, row: Row)
    ensures row in Rows(buffer, lib) <==> exists i | 0 <= i < |buffer| :: RowsOf(buffer[i], lib) == [row]
  {
    if buffer != [] {
      RowsExact(buffer[1..], lib, row);
      if row in Rows(buffer[1..], lib) {
        var i :| 0 <= i < |buffer[1..]| && RowsOf(buffer[1..][i], lib) == [row];
        assert RowsOf(buffer[i + 1], lib) == [row];
      }
      if exists i | 0 <= i < |buffer| :: RowsOf(buffer[i], lib) == [row] {
        var i :| 0 <= i < |buffer| && RowsOf(buffer[i], lib) == [row];
        if i > 0 {
          assert RowsOf(buffer[1..][i - 1], lib) == [row];
        }
      }
    }
  }

  /** The snapshot has no rows exactly when no buffered record has a kept temperature. */
  lemma {:induction false} RowsEmpty(buffer: seq<Record>, lib: Lib)
    ensures Rows(buffer, lib) == [] <==> forall i | 0 <= i < |buffer| :: !Temperature(CellOf(buffer[i], "temperature"), lib).Kept?
  {
    if buffer != [] {
      var rest := buffer[1..];
      RowsEmpty(rest, lib);
      assert Rows(buffer, lib) == [] <==> RowsOf(buffer[0], lib) == [] && Rows(rest, lib) == [];
      assert forall i | 1 <= i < |buffer| :: buffer[i] == rest[i - 1];
    }
  }

  /** A record that makes a build raise keeps every later build raising,
      because the buffer only grows. */
  lemma PoisonPersists(buffer: seq<Record>, more: seq<Record>, lib: Lib, i: nat)
    requires i < |buffer| && Poisoned(buffer[i], lib)
    ensures Build(buffer + more, lib).Failed?
  {
    assert (buffer + more)[i] == buffer[i];
  }

  /** The distinct cities of `rows`, in order of first appearance (`unique()`). */
  function Cities(rows: seq<Row>): (cs: seq<Cell>)
    ensures forall c :: c in cs <==> exists i | 0 <= i < |rows| :: rows[i].city == c
    ensures forall i, j | 0 <= i < j < |cs| :: cs[i] != cs[j]
  {
    if rows == [] then []
    else
      var cs := Cities(rows[..|rows| - 1]);
      var c := rows[|rows| - 1].city;
      assert forall i | 0 <= i < |rows| - 1 :: rows[..|rows| - 1][i] == rows[i];
      if c in cs then cs else cs + [c]
  }

  /** `unique()` keeps the order of first appearance: every city of the
      list occurs in `rows` before any row of a city listed after it. */
  lemma {:induction false} CitiesInOrder(rows: seq<Row>, i: nat, j: nat)
    requires i < j < |Cities(rows)|
    ensures exists p | 0 <= p < |rows| :: rows[p].city == Cities(rows)[i] &&
              forall q | 0 <= q <= p :: rows[q].city != Cities(rows)[j]
  {
    var front := rows[..|rows| - 1];
    var cs := Cities(front);
    assert forall k | 0 <= k < |rows| - 1 :: front[k] == rows[k];
    if j < |cs| {
      CitiesInOrder(front, i, j);
      var p :| 0 <= p < |front| && front[p].city == cs[i] && forall q | 0 <= q <= p :: front[q].city != cs[j];
      assert rows[p].city == Cities(rows)[i];
    } else {
      var c := rows[|rows| - 1].city;
      assert Cities(rows) == cs + [c] && c !in cs;
      assert cs[i] in cs;
      var p :| 0 <= p < |front| && front[p].city == cs[i];
      assert forall q | 0 <= q <= p :: front[q].city in cs;
    }
  }

  /** `df[df['city'] == city]`: the rows of one city, in table order. NaN and
      `None` compare unequal to everything, so their selection is empty. */
  function CityRows(rows: seq<Row>, c: Cell): (rs: seq<Row>)
    ensures |rs| <= |rows|
    ensures forall k | 0 <= k < |rs| :: rs[k].city == c && rs[k] in rows
    ensures !c.Text? ==> rs == []
  {
    if rows == [] || !c.Text? then []
    else CityRows(rows[..|rows| - 1], c) + (if rows[|rows| - 1].city == c then [rows[|rows| - 1]] else [])
  }

  /** A city's selection holds exactly that city's rows, and none when the
      city cell is NaN or `None`. */
  lemma {:induction false} CityRowsExact(rows: seq<Row>, c: Cell, row: Row)
    ensures row in CityRows(rows, c) <==> c.Text? && row.city == c && row in rows
  {
    if rows != [] && c.Text? {
      var front := rows[..|rows| - 1];
      CityRowsExact(front, c, row);
      assert rows == front + [rows[|rows| - 1]];
    }
  }

  /** Selecting a city from a concatenation selects from each part, in order:
      the selection keeps table order and repeated rows, with no sort. */
  lemma {:induction false} CityRowsAppend(a: seq<Row>, b: seq<Row>, c: Cell)
    ensures CityRows(a + b, c) == CityRows(a, c) + CityRows(b, c)
    decreases |b|
  {
    if b == [] {
      assert a + b == a;
    } else if c.Text? {
      assert (a + b)[..|a + b| - 1] == a + b[..|b| - 1];
      CityRowsAppend(a, b[..|b| - 1], c);
    }
  }

  /** A single row is selected exactly when its city is the (text) city asked for. */
  lemma CityRowsOne(row: Row, c: Cell)
    ensures CityRows([row], c) == if c.Text? && row.city == c then [row] else []
  {
    assert [row][..0] == [];
  }

  /** The series `generate_chart` draws: one per distinct city, in order of first appearance. */
  function Group(rows: seq<Row>): (g: seq<Series>)
    ensures |g| == |Cities(rows)|
    ensures forall k | 0 <= k < |g| :: g[k].city == Cities(rows)[k]
    ensures forall k, row | 0 <= k < |g| && row in g[k].rows :: row.city == g[k].city && row in rows
  {
    var cs := Cities(rows);
    seq(|cs|, k requires 0 <= k < |cs| => Series(cs[k], CityRows(rows, cs[k])))
  }

  /** Each row with a real city lies in exactly one series, the one of its city. */
  lemma GroupCovers(rows: seq<Row>, row: Row)
    requires row in rows && row.city.Text?
    ensures exists k | 0 <= k < |Group(rows)| :: Group(rows)[k].city == row.city && row in Group(rows)[k].rows
    ensures forall k | 0 <= k < |Group(rows)| && row in Group(rows)[k].rows :: Group(rows)[k].city == row.city
  {
    var cs := Cities(rows);
    var i :| 0 <= i < |rows| && rows[i] == row;
    assert row.city in cs;
    var k :| 0 <= k < |cs| && cs[k] == row.city;
    CityRowsExact(rows, cs[k], row);
    assert Group(rows)[k] == Series(cs[k], CityRows(rows, cs[k]));
    forall k' | 0 <= k' < |cs| && row in Group(rows)[k'].rows
      ensures Group(rows)[k'].city == row.city
    {
      CityRowsExact(rows, cs[k'], row);
    }
  }
}
