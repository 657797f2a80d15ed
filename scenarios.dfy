/**
 * Concrete tables from the documented `accounts.user` example, and what the
 * comparison rules decide about them.
 */
module Scenarios {
  import opened Wrappers
  import opened Schema
  import opened Comparator
  import opened DbVersion

  function IdColumn(serverDefault: Option<ServerClause>): Column {
    Column("id", true, serverDefault, None, Integer, None)
  }

  function VarChar(name: string, n: nat): Column {
    Column(name, false, None, None, String, Some(n))
  }

  /** The declared `accounts.user` table: `id` integer key, `email` and `password` strings of length 100. */
  function UserV0(): Table {
    Table(Some("accounts"), "user", [IdColumn(None), VarChar("email", 100), VarChar("password", 100)])
  }

  /** The next version's `accounts.user`, with a `displayname` string of length 1000 appended. */
  function UserV1(): Table {
    Table(Some("accounts"), "user", UserV0().columns + [VarChar("displayname", 1000)])
  }

  /** A reader for a database holding exactly one table. */
  function OnlyTable(t: Table): Reader {
    (schema: Option<string>, name: string) => if schema == t.schema && name == t.name then Some(t) else None
  }

  /**
   * A live `id` key column that the database reflects with a sequence default
   * still matches the declared one, which has none: key columns skip the
   * default check.
   */
  lemma ReflectedKeyDefaultIgnored(sequence: ServerClause)
    ensures CompareColumns(IdColumn(Some(sequence)), IdColumn(None))
  {
    PrimaryKeyIgnoresDefault(IdColumn(None), IdColumn(None), Some(sequence), None);
    CompareColumnsReflexive(IdColumn(None));
  }

  /**
   * A non-key column whose reflected default is a different object from the
   * declared one is rejected at the default check, even when both clauses
   * carry the same text.
   */
  lemma ReflectedDefaultRejected(reflected: ServerClause, declared: ServerClause)
    requires reflected != declared && reflected.text == declared.text
    ensures ColumnMismatch(Column("n", false, Some(reflected), None, Integer, None),
                           Column("n", false, Some(declared), None, Integer, None)) == Some(ServerDefaultDiffers)
  {
  }

  /** Two Enum columns of equal length take the String branch and match. */
  lemma EnumColumnsOfEqualLengthMatch()
    ensures CompareColumns(Column("state", false, None, None, Enum, Some(8)),
                           Column("state", false, None, None, Enum, Some(8)))
  {
  }

  /** A database created from the first declaration matches it. */
  lemma FreshDatabaseMatches()
    ensures MatchesFrom([UserV0()], OnlyTable(UserV0())) == Success(true)
  {
    TablesMatchReflexive(UserV0());
    assert LiveAgrees(UserV0(), OnlyTable(UserV0()));
  }

  /** Checking a version against a database without its table raises, naming the table. */
  lemma MissingTableRaises()
    ensures MatchesFrom([UserV0()], OnlyTable(Table(Some("accounts"), "group", []))) ==
              Failure(NoSuchTable(Some("accounts"), "user"))
  {
  }

  /**
   * Because columns are zipped, a database still at the first declaration
   * (without `displayname`) matches the next version's declaration too.
   */
  lemma OlderDatabaseMatchesNewerDeclaration()
    ensures MatchesFrom([UserV1()], OnlyTable(UserV0())) == Success(true)
  {
    TablesMatchReflexive(UserV0());
    ExtraColumnsIgnored(UserV0(), UserV0(), [VarChar("displayname", 1000)]);
    assert LiveAgrees(UserV1(), OnlyTable(UserV0()));
  }

  /**
   * Table matching is not transitive: a table with no columns matches two
   * same-named tables whose only columns differ.
   */
  lemma TablesMatchNotTransitive()
    ensures var empty := Table(None, "t", []);
            var a := Table(None, "t", [VarChar("a", 10)]);
            var b := Table(None, "t", [VarChar("b", 10)]);
            TablesMatch(a, empty) && TablesMatch(empty, b) && !TablesMatch(a, b)
  {
    var a := Table(None, "t", [VarChar("a", 10)]);
    var b := Table(None, "t", [VarChar("b", 10)]);
    assert !CompareColumns(a.columns[0], b.columns[0]);
  }

  /** Reordering the columns of a table breaks the match: columns are compared by position, not by name. */
  lemma ReorderedColumnsDoNotMatch()
    ensures !TablesMatch(Table(None, "t", [VarChar("a", 10), VarChar("b", 10)]),
                         Table(None, "t", [VarChar("b", 10), VarChar("a", 10)]))
  {
    var l := Table(None, "t", [VarChar("a", 10), VarChar("b", 10)]);
    var r := Table(None, "t", [VarChar("b", 10), VarChar("a", 10)]);
    assert !CompareColumns(l.columns[0], r.columns[0]);
  }

  /** A Boolean column does not match even an identical copy of itself. */
  lemma BooleanColumnNeverMatches()
    ensures ColumnMismatch(Column("active", false, None, None, Boolean, None),
                           Column("active", false, None, None, Boolean, None)) == Some(UnexpectedType)
  {
  }
}
