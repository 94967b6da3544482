/** The statement texts of the SQL layer, built with trailing separators that are trimmed, and a reader
    that takes them apart again (sqldb/sqldb.go, CreateTable and Insert). */
module SqlText {
  import opened Spider
  import opened Text

  datatype Field = Field(title: string, kind: string)

  datatype TableData = TableData(
    tableName: string, columnNames: seq<Field>, args: seq<string>, dataCount: int, autoKey: bool)

  /** Go panics when it slices an empty string from 1, or repeats a negative number of times. */
  datatype Rendered = EmptyColumn | Panics | Statement(sql: string)

  const CREATE := "CREATE TABLE IF NOT EXISTS "
  // In pieces, because KeyIsClean looks for a character in each of them.
  const ID_COLUMN := "id INT(12)" + " NOT NULL " + "PRIMARY KEY" + " AUTO_" + "INCREMENT"
  const ENGINE := ") ENGINE=MyISAM DEFAULT CHARSET=utf8;"
  const INSERT := "INSERT INTO "
  const VALUES := ") VALUES "

  /** strings.Repeat for a non-negative count. */
  function Repeat(s: string, count: nat): string {
    if count == 0 then "" else s + Repeat(s, count - 1)
  }

  function Copies(s: string, n: nat): seq<string> {
    seq(n, i => s)
  }

  function Titles(columns: seq<Field>): (titles: seq<string>)
    ensures |titles| == |columns|
  {
    seq(|columns|, i requires 0 <= i < |columns| => columns[i].title)
  }

  function Definition(f: Field): string { f.title + " " + f.kind }

  function Definitions(t: TableData): seq<string> {
    (if t.autoKey then [ID_COLUMN] else [])
    + seq(|t.columnNames|, i requires 0 <= i < |t.columnNames| => Definition(t.columnNames[i]))
  }

  /** One group of placeholders. */
  function Group(width: nat): string { "(" + Join(Copies("?", width), ",") + ")" }

  /** The separator-joined forms the trimmed texts amount to. */
  function CreateText(t: TableData): string {
    CREATE + t.tableName + " (" + Join(Definitions(t), ",") + ENGINE
  }

  function InsertText(tableName: string, titles: seq<string>, rows: nat): string {
    INSERT + tableName + "(" + Join(titles, ",") + VALUES + Join(Copies(Group(|titles|), rows), ",") + ";"
  }

  // ---------------------------------------------------------------- trimming

  /** Pieces each followed by a comma. */
  function Trailed(pieces: seq<string>): string {
    if |pieces| == 0 then "" else Trailed(pieces[..|pieces| - 1]) + (pieces[|pieces| - 1] + ",")
  }

  /** Cutting the last comma leaves the pieces joined. */
  lemma {:induction false} TrimTrailed(pieces: seq<string>)
    requires |pieces| > 0
    ensures Trailed(pieces) == Join(pieces, ",") + ","
  {
    var n := |pieces| - 1;
    if n == 0 {
    } else {
      TrimTrailed(pieces[..n]);
      JoinSnoc(pieces[..n], pieces[n], ",");
      assert pieces[..n] + [pieces[n]] == pieces;
    }
  }

  lemma {:induction false} JoinSnoc(pieces: seq<string>, last: string, sep: string)
    requires |pieces| > 0
    ensures Join(pieces + [last], sep) == Join(pieces, sep) + sep + last
  {
    if |pieces| <= 1 {
    } else {
      JoinSnoc(pieces[1..], last, sep);
      assert (pieces + [last])[1..] == pieces[1..] + [last];
    }
  }

  /** Repeating a group with a leading comma and cutting the first comma joins the copies. */
  lemma {:induction false} TrimRepeat(s: string, count: nat)
    requires count > 0
    ensures Repeat("," + s, count) == "," + Join(Copies(s, count), ",")
  {
    if count == 1 {
    } else {
      TrimRepeat(s, count - 1);
      assert Copies(s, count)[1..] == Copies(s, count - 1);
    }
  }

  method CreateTable(t: TableData) returns (r: Rendered)
    ensures r == if |t.columnNames| == 0 then EmptyColumn else Statement(CreateText(t))
    ensures |t.columnNames| > 0 ==>
              r.sql == "CREATE TABLE IF NOT EXISTS " + t.tableName + " (" + Join(Definitions(t), ",")
                       + ") ENGINE=MyISAM DEFAULT CHARSET=utf8;"
  {
    if |t.columnNames| == 0 {
      return EmptyColumn;
    }
    var sql := CREATE + t.tableName + " (";
    ghost var head, defs, keys := sql, Definitions(t), if t.autoKey then 1 else 0;
    assert head + Trailed(defs[..0]) == sql;
    if t.autoKey {
      TrailedNext(defs, 0);
      Append(head, Trailed(defs[..0]), ID_COLUMN + ",");
      sql := sql + (ID_COLUMN + ",");
    }
    for i := 0 to |t.columnNames|
      invariant sql == head + Trailed(defs[..keys + i])
    {
      TrailedNext(defs, keys + i);
      Append(head, Trailed(defs[..keys + i]), Definition(t.columnNames[i]) + ",");
      sql := sql + (Definition(t.columnNames[i]) + ",");
    }
    assert defs[..|defs|] == defs;
    TrimTrailed(defs);
    Append(head, Join(defs, ","), ",");
    sql := sql[..|sql| - 1] + ENGINE;
    r := Statement(sql);
  }

  lemma {:induction false} KeyColumn()
    ensures ID_COLUMN == "id INT(12) NOT NULL PRIMARY KEY AUTO_INCREMENT"
  {
    assert "id INT(12)" + " NOT NULL " == "id INT(12) NOT NULL ";
    assert "id INT(12) NOT NULL " + "PRIMARY KEY" == "id INT(12) NOT NULL PRIMARY KEY";
    assert " AUTO_" + "INCREMENT" == " AUTO_INCREMENT";
  }

  /** The definitions a table is created with: the generated key first if asked for, then each column. */
  lemma {:induction false} DefinitionsSpelledOut(t: TableData, k: nat)
    requires k < |t.columnNames|
    ensures |Definitions(t)| == |t.columnNames| + if t.autoKey then 1 else 0
    ensures t.autoKey ==> Definitions(t)[0] == "id INT(12) NOT NULL PRIMARY KEY AUTO_INCREMENT"
    ensures Definitions(t)[if t.autoKey then k + 1 else k] == t.columnNames[k].title + " " + t.columnNames[k].kind
  {
    KeyColumn();
  }

  lemma {:induction false} TrailedNext(pieces: seq<string>, k: nat)
    requires k < |pieces|
    ensures Trailed(pieces[..k + 1]) == Trailed(pieces[..k]) + (pieces[k] + ",")
  {
    assert pieces[..k + 1][..k] == pieces[..k];
  }

  lemma {:induction false} Append(a: string, b: string, c: string)
    ensures a + (b + c) == (a + b) + c
  {
  }

  method Insert(t: TableData) returns (r: Rendered)
    ensures r == if |t.columnNames| == 0 then EmptyColumn
                 else if t.dataCount < 1 then Panics
                 else Statement(InsertText(t.tableName, Titles(t.columnNames), t.dataCount))
    ensures forall k | 0 <= k < |t.columnNames| :: Titles(t.columnNames)[k] == t.columnNames[k].title
    ensures |t.columnNames| > 0 && t.dataCount >= 1 ==>
              r.sql == "INSERT INTO " + t.tableName + "(" + Join(Titles(t.columnNames), ",") + ") VALUES "
                       + Join(Copies(Group(|t.columnNames|), t.dataCount), ",") + ";"
  {
    if |t.columnNames| == 0 {
      return EmptyColumn;
    }
    var sql := INSERT + t.tableName + "(";
    ghost var head, titles := sql, Titles(t.columnNames);
    for i := 0 to |t.columnNames|
      invariant sql == head + Trailed(titles[..i])
    {
      sql := sql + (t.columnNames[i].title + ",");
      assert titles[..i + 1][..i] == titles[..i];
    }
    assert titles[..|titles|] == titles;
    TrimTrailed(titles);
    sql := sql[..|sql| - 1] + VALUES;
    var blank := Repeat(",?", |t.columnNames|);
    assert ",?" == "," + "?";
    TrimRepeat("?", |t.columnNames|);
    blank := ",(" + blank[1..] + ")";
    assert blank == "," + Group(|t.columnNames|);
    if t.dataCount < 1 {
      return Panics;
    }
    TrimRepeat(Group(|t.columnNames|), t.dataCount);
    sql := sql + Repeat(blank, t.dataCount)[1..] + ";";
    r := Statement(sql);
  }

  // ---------------------------------------------------------------- reading an insert

  /** The table, the columns, and the number of placeholders in each row. */
  datatype ReadInsert = ReadInsert(tableName: string, titles: seq<string>, widths: seq<nat>)

  function Count(s: string, c: char): nat {
    if |s| == 0 then 0 else (if s[0] == c then 1 else 0) + Count(s[1..], c)
  }

  /** Placeholders separated by commas up to ')', and what follows it. */
  function ReadMarks(s: string): (marks: Option<(nat, string)>)
    ensures marks.Some? ==> |marks.value.1| < |s|
  {
    if |s| < 2 || s[0] != '?' then None
    else if s[1] == ')' then Some((1, s[2..]))
    else if s[1] != ',' then None
    else
      match ReadMarks(s[2..])
      case None => None
      case Some((n, rest)) => Some((n + 1, rest))
  }

  /** Groups in parentheses separated by commas up to a final semicolon. */
  function ReadGroups(s: string): Option<seq<nat>>
    decreases |s|
  {
    if |s| == 0 || s[0] != '(' then None
    else
      match ReadMarks(s[1..])
      case None => None
      case Some((n, rest)) =>
        if rest == ";" then Some([n])
        else if |rest| == 0 || rest[0] != ',' then None
        else
          match ReadGroups(rest[1..])
          case None => None
          case Some(more) => Some([n] + more)
  }

  /** The titles up to ')', the word VALUES, then the groups and nothing else. */
  function ParseInside(tableName: string, inside: string): Option<ReadInsert> {
    var j := IndexOf(inside, ')');
    if !(") VALUES " <= inside[j..]) then None
    else
      match ReadGroups(inside[j + 9..])
      case None => None
      case Some(widths) => Some(ReadInsert(tableName, Split(inside[..j], ','), widths))
  }

  /** The table up to '(', then the rest. */
  function ParseInsert(sql: string): Option<ReadInsert> {
    if !("INSERT INTO " <= sql) then None
    else
      var rest := sql[12..];
      var i := IndexOf(rest, '(');
      if i == |rest| then None else ParseInside(rest[..i], rest[i + 1..])
  }

  lemma {:induction false} CountConcat(a: string, b: string, c: char)
    ensures Count(a + b, c) == Count(a, c) + Count(b, c)
  {
    if |a| == 0 {
      assert a + b == b;
    } else {
      CountConcat(a[1..], b, c);
      assert (a + b)[1..] == a[1..] + b;
    }
  }

  lemma {:induction false} CountCopies(s: string, n: nat, c: char)
    requires c != ','
    ensures Count(Join(Copies(s, n), ","), c) == n * Count(s, c)
  {
    if n > 1 {
      CountCopies(s, n - 1, c);
      assert Copies(s, n)[1..] == Copies(s, n - 1);
      CountConcat(s + ",", Join(Copies(s, n - 1), ","), c);
      CountConcat(s, ",", c);
      assert n * Count(s, c) == Count(s, c) + (n - 1) * Count(s, c);
    } else if n == 1 {
      assert Copies(s, 1) == [s];
    }
  }

  lemma {:induction false} CountGroup(width: nat)
    ensures Count(Group(width), '(') == 1 && Count(Group(width), '?') == width
  {
    var marks := Join(Copies("?", width), ",");
    CountCopies("?", width, '(');
    CountCopies("?", width, '?');
    assert Count("?", '(') == 0 && Count("?", '?') == 1 by {
      assert "?"[1..] == "";
    }
    CountConcat("(" + marks, ")", '(');
    CountConcat("(" + marks, ")", '?');
    CountConcat("(", marks, '(');
    CountConcat("(", marks, '?');
    assert "("[1..] == "" && ")"[1..] == "";
  }

  /** The placeholder part holds one group per row and width times rows placeholders. */
  lemma {:induction false} CountTail(width: nat, rows: nat)
    ensures var tail := VALUES + Join(Copies(Group(width), rows), ",") + ";";
            Count(tail, '(') == rows && Count(tail, '?') == rows * width
  {
    var groups := Join(Copies(Group(width), rows), ",");
    CountGroup(width);
    forall c | c == '(' || c == '?'
      ensures Count(VALUES + groups + ";", c) == rows * Count(Group(width), c)
    {
      CountConcat(VALUES + groups, ";", c);
      CountConcat(VALUES, groups, c);
      CountCopies(Group(width), rows, c);
      NoneOf(VALUES, c);
      NoneOf(";", c);
    }
  }

  lemma {:induction false} NoneOf(s: string, c: char)
    requires c !in s
    ensures Count(s, c) == 0
  {
    if |s| == 0 {
    } else {
      NoneOf(s[1..], c);
    }
  }

  /** An insert prints one placeholder per row and column, when no name contains '?'. */
  lemma {:induction false} InsertPlaceholders(tableName: string, titles: seq<string>, rows: nat)
    requires '?' !in tableName && forall k :: 0 <= k < |titles| ==> '?' !in titles[k]
    ensures Count(InsertText(tableName, titles, rows), '?') == rows * |titles|
  {
    var groups := Join(Copies(Group(|titles|), rows), ",");
    var head := INSERT + tableName + "(" + Join(titles, ",");
    Append(head, VALUES + groups, ";");
    Append(head, VALUES, groups);
    CountTail(|titles|, rows);
    CountConcat(head, VALUES + groups + ";", '?');
    JoinFree(titles, ",", '?');
    NoneOf(head, '?');
  }

  lemma {:induction false} JoinFree(pieces: seq<string>, sep: string, c: char)
    requires c !in sep && forall k :: 0 <= k < |pieces| ==> c !in pieces[k]
    ensures c !in Join(pieces, sep)
  {
    if |pieces| <= 1 {
    } else {
      JoinFree(pieces[1..], sep, c);
    }
  }

  lemma {:induction false} MarksRead(width: nat, rest: string)
    requires width > 0
    ensures ReadMarks(Join(Copies("?", width), ",") + ")" + rest) == Some((width, rest))
  {
    var s := Join(Copies("?", width), ",") + ")" + rest;
    if width == 1 {
      assert s == "?" + ")" + rest;
      assert s[2..] == rest;
    } else {
      MarksRead(width - 1, rest);
      assert Copies("?", width)[1..] == Copies("?", width - 1);
      assert s[0] == '?' && s[1] == ',';
      assert s[2..] == Join(Copies("?", width - 1), ",") + ")" + rest;
    }
  }

  lemma {:induction false} GroupRead(width: nat, rest: string)
    requires width > 0
    ensures var s := Group(width) + rest;
            s[0] == '(' && ReadMarks(s[1..]) == Some((width, rest))
  {
    MarksRead(width, rest);
    assert (Group(width) + rest)[1..] == Join(Copies("?", width), ",") + ")" + rest;
  }

  /** The groups of an insert read back as one width per row. */
  lemma {:induction false} GroupsRead(width: nat, rows: nat)
    requires width > 0 && rows > 0
    ensures ReadGroups(Join(Copies(Group(width), rows), ",") + ";") == Some(seq(rows, i => width))
  {
    var s := Join(Copies(Group(width), rows), ",") + ";";
    if rows == 1 {
      assert s == Group(width) + ";";
      GroupRead(width, ";");
      assert seq(1, i => width) == [width];
    } else {
      var rest := "," + Join(Copies(Group(width), rows - 1), ",") + ";";
      GroupsRead(width, rows - 1);
      assert Copies(Group(width), rows)[1..] == Copies(Group(width), rows - 1);
      assert s == Group(width) + rest;
      GroupRead(width, rest);
      assert rest[1..] == Join(Copies(Group(width), rows - 1), ",") + ";";
      assert seq(rows, i => width) == [width] + seq(rows - 1, i => width);
    }
  }

  lemma {:induction false} InsertPieces(tableName: string, names: string, copies: string)
    ensures INSERT + tableName + "(" + names + VALUES + copies + ";"
         == INSERT + (tableName + ['('] + (names + [')'] + (" VALUES " + (copies + ";"))))
  {
    assert VALUES == [')'] + " VALUES ";
  }

  lemma {:induction false} ValuesSlices(groups: string)
    ensures var s := [')'] + (" VALUES " + groups);
            ") VALUES " <= s && s[9..] == groups
  {
  }

  lemma {:induction false} InsideCuts(tableName: string, names: string, groups: string)
    requires ')' !in names
    ensures ParseInside(tableName, names + [')'] + (" VALUES " + groups)) ==
            match ReadGroups(groups)
            case None => None
            case Some(widths) => Some(ReadInsert(tableName, Split(names, ','), widths))
  {
    var values := " VALUES " + groups;
    var inside := names + [')'] + values;
    IndexOfFirst(names, ')', values);
    assert inside[..|names|] == names && inside[|names|..] == [')'] + values;
    ValuesSlices(groups);
    assert inside[|names| + 9..] == inside[|names|..][9..];
  }

  /** The reader cuts at the first '(' and the first ')' after it. */
  lemma {:induction false} InsertCuts(tableName: string, names: string, groups: string)
    requires '(' !in tableName && ')' !in names
    ensures ParseInsert(INSERT + (tableName + ['('] + (names + [')'] + (" VALUES " + groups)))) ==
            match ReadGroups(groups)
            case None => None
            case Some(widths) => Some(ReadInsert(tableName, Split(names, ','), widths))
  {
    var inside := names + [')'] + (" VALUES " + groups);
    var rest := tableName + ['('] + inside;
    assert (INSERT + rest)[12..] == rest;
    IndexOfFirst(tableName, '(', inside);
    assert rest[|tableName| + 1..] == inside && rest[..|tableName|] == tableName;
    InsideCuts(tableName, names, groups);
  }

  /** The reader recovers the table, the columns, and one group of as many placeholders as columns for each
      row, from any insert of at least one column and one row whose names carry no separator of the text. */
  lemma {:induction false} InsertRoundTrip(tableName: string, titles: seq<string>, rows: nat)
    requires |titles| > 0 && rows > 0 && '(' !in tableName
    requires forall k :: 0 <= k < |titles| ==> ',' !in titles[k] && ')' !in titles[k]
    ensures ParseInsert(InsertText(tableName, titles, rows)) ==
            Some(ReadInsert(tableName, titles, seq(rows, i => |titles|)))
  {
    var names, copies := Join(titles, ","), Join(Copies(Group(|titles|), rows), ",");
    InsertPieces(tableName, names, copies);
    JoinFree(titles, ",", ')');
    InsertCuts(tableName, names, copies + ";");
    SplitJoin(titles, ',');
    GroupsRead(|titles|, rows);
  }

  // ---------------------------------------------------------------- reading a table definition

  datatype ReadCreate = ReadCreate(tableName: string, autoKey: bool, columns: seq<Field>)

  function ReadField(definition: string): Field {
    var i := IndexOf(definition, ' ');
    if i == |definition| then Field(definition, "") else Field(definition[..i], definition[i + 1..])
  }

  function ReadFields(definitions: seq<string>): seq<Field> {
    seq(|definitions|, i requires 0 <= i < |definitions| => ReadField(definitions[i]))
  }

  /** The table up to " (", the definitions up to the engine clause; a first definition equal to the
      generated key column is read as AutoKey. */
  function ParseCreate(sql: string): Option<ReadCreate> {
    if !(CREATE <= sql) then None
    else
      var rest := sql[|CREATE|..];
      var i := IndexOf(rest, '(');
      if i == 0 || |rest| < i + 1 + |ENGINE| then None
      else
        var definitions := Split(rest[i + 1..|rest| - |ENGINE|], ',');
        var autoKey := definitions[0] == ID_COLUMN;
        Some(ReadCreate(rest[..i - 1], autoKey, ReadFields(if autoKey then definitions[1..] else definitions)))
  }

  lemma {:induction false} FieldRoundTrip(f: Field)
    requires ' ' !in f.title
    ensures ReadField(Definition(f)) == f
  {
    IndexOfFirst(f.title, ' ', f.kind);
    assert Definition(f) == f.title + [' '] + f.kind;
    assert Definition(f)[..|f.title|] == f.title && Definition(f)[|f.title| + 1..] == f.kind;
  }

  function ReadDefinitions(tableName: string, definitions: seq<string>): ReadCreate
    requires |definitions| > 0
  {
    var autoKey := definitions[0] == ID_COLUMN;
    ReadCreate(tableName, autoKey, ReadFields(if autoKey then definitions[1..] else definitions))
  }

  /** The reader cuts at the first '(' and before the engine clause. */
  lemma {:induction false} CreateCuts(tableName: string, body: string)
    requires '(' !in tableName
    ensures ParseCreate(CREATE + (tableName + " " + ['('] + (body + ENGINE)))
         == Some(ReadDefinitions(tableName, Split(body, ',')))
  {
    var rest := tableName + " " + ['('] + (body + ENGINE);
    assert (CREATE + rest)[|CREATE|..] == rest;
    assert '(' !in tableName + " ";
    IndexOfFirst(tableName + " ", '(', body + ENGINE);
    RestSlices(tableName, body);
  }

  /** What the reader sees of a rendered table: its name and its list of definitions. */
  lemma {:induction false} CreateSplits(tableName: string, definitions: seq<string>)
    requires |definitions| > 0 && '(' !in tableName
    requires forall k :: 0 <= k < |definitions| ==> ',' !in definitions[k]
    ensures ParseCreate(CREATE + tableName + " (" + Join(definitions, ",") + ENGINE)
         == Some(ReadDefinitions(tableName, definitions))
  {
    var body := Join(definitions, ",");
    CreatePieces(tableName, body);
    CreateCuts(tableName, body);
    SplitJoin(definitions, ',');
  }

  lemma {:induction false} KeyIsClean()
    ensures ',' !in ID_COLUMN
  {
    assert ',' !in "id INT(12)" && ',' !in " NOT NULL " && ',' !in "PRIMARY KEY";
    assert ',' !in " AUTO_" && ',' !in "INCREMENT";
  }

  lemma {:induction false} DefinitionsAreClean(t: TableData)
    requires forall f | f in t.columnNames :: ',' !in f.title && ',' !in f.kind
    ensures forall k :: 0 <= k < |Definitions(t)| ==> ',' !in Definitions(t)[k]
  {
    KeyIsClean();
    forall k | 0 <= k < |Definitions(t)|
      ensures ',' !in Definitions(t)[k]
    {
      var i := if t.autoKey then k - 1 else k;
      if i >= 0 {
        assert t.columnNames[i] in t.columnNames;
        assert Definitions(t)[k] == Definition(t.columnNames[i]);
      }
    }
  }

  lemma {:induction false} CreatePieces(tableName: string, body: string)
    ensures CREATE + tableName + " (" + body + ENGINE == CREATE + (tableName + " " + ['('] + (body + ENGINE))
  {
    assert " (" == " " + ['('];
  }

  lemma {:induction false} RestSlices(tableName: string, body: string)
    ensures var rest := tableName + " " + ['('] + (body + ENGINE);
            && rest[..|tableName|] == tableName
            && |rest| == |tableName| + 2 + |body| + |ENGINE|
            && rest[|tableName| + 2..|rest| - |ENGINE|] == body
  {
  }

  /** The reader recovers the table, the columns and the AutoKey choice exactly when AutoKey was asked
      for or the first user column is not spelled like the generated key. */
  lemma {:induction false} CreateRoundTrip(t: TableData)
    requires |t.columnNames| > 0 && '(' !in t.tableName
    requires forall f | f in t.columnNames :: ',' !in f.title && ',' !in f.kind && ' ' !in f.title
    ensures ParseCreate(CreateText(t)) == Some(ReadCreate(t.tableName, t.autoKey, t.columnNames)) <==>
            t.autoKey || Definition(t.columnNames[0]) != ID_COLUMN
  {
    DefinitionsAreClean(t);
    CreateSplits(t.tableName, Definitions(t));
    UserFields(t);
    var definitions := Definitions(t);
    if t.autoKey {
      assert definitions[0] == ID_COLUMN;
    } else {
      assert definitions[0] == Definition(t.columnNames[0]);
    }
  }

  /** The definitions of the user's columns. */
  function UserDefinitions(t: TableData): (users: seq<string>)
    ensures |users| == |t.columnNames|
  {
    if t.autoKey then Definitions(t)[1..] else Definitions(t)
  }

  /** Without the generated key, the definitions read back as the columns. */
  lemma {:induction false} UserFields(t: TableData)
    requires forall f | f in t.columnNames :: ' ' !in f.title
    ensures ReadFields(UserDefinitions(t)) == t.columnNames
  {
    forall k | 0 <= k < |t.columnNames|
      ensures ReadField(UserDefinitions(t)[k]) == t.columnNames[k]
    {
      assert UserDefinitions(t)[k] == Definition(t.columnNames[k]);
      FieldRoundTrip(t.columnNames[k]);
    }
  }
}
