/**
 * A database schema version: the tables it declares, and the test of whether
 * a live database matches them.
 */
module DbVersion {
  import opened Wrappers
  import opened Schema
  import opened Comparator

  /**
   * Reflects the live table `name` in `schema` from the database: None when the
   * database has no such table.
   */
  type Reader = (Option<string>, string) -> Option<Table>

  /** Reflection of a declared table that the database does not have raises this error. */
  datatype MatchError = NoSuchTable(schema: Option<string>, name: string)

  /** The live table read for the same schema and name as `t` exists and matches it, with the live table as `lhs`. */
  predicate LiveAgrees(t: Table, read: Reader) {
    read(t.schema, t.name).Some? && TablesMatch(read(t.schema, t.name).value, t)
  }

  /**
   * The outcome of checking the declared tables in order: reading a missing
   * table raises, the first table that does not match gives false, and true
   * once every table has matched.
   */
  function MatchesFrom(declared: seq<Table>, read: Reader): (r: Result<bool, MatchError>)
    ensures r == Success(true) <==> forall i :: 0 <= i < |declared| ==> LiveAgrees(declared[i], read)
  {
    if declared == [] then Success(true)
    else
      var t := declared[0];
      match read(t.schema, t.name)
      case None => Failure(NoSuchTable(t.schema, t.name))
      case Some(live) =>
        if !TablesMatch(live, t) then Success(false)
        else MatchesFrom(declared[1..], read)
  }

  /** The position of the first declared table the live database does not agree with, or the count when there is none. */
  function FirstDisagreement(declared: seq<Table>, read: Reader): (k: nat)
    ensures k <= |declared|
    ensures forall j :: 0 <= j < k ==> LiveAgrees(declared[j], read)
    ensures k < |declared| ==> !LiveAgrees(declared[k], read)
  {
    if declared == [] then 0
    else if !LiveAgrees(declared[0], read) then 0
    else 1 + FirstDisagreement(declared[1..], read)
  }

  /**
   * The outcome is decided by the first table that does not agree: none gives
   * true; a missing one raises, naming it; a present one that does not match
   * gives false.
   */
  lemma {:induction false} MatchesFromDecidedByFirstDisagreement(declared: seq<Table>, read: Reader)
    ensures var k := FirstDisagreement(declared, read);
      && (k == |declared| ==> MatchesFrom(declared, read) == Success(true))
      && (k < |declared| && read(declared[k].schema, declared[k].name).None? ==>
            MatchesFrom(declared, read) == Failure(NoSuchTable(declared[k].schema, declared[k].name)))
      && (k < |declared| && read(declared[k].schema, declared[k].name).Some? ==>
            MatchesFrom(declared, read) == Success(false))
  {
    if declared != [] && LiveAgrees(declared[0], read) {
      MatchesFromDecidedByFirstDisagreement(declared[1..], read);
      assert FirstDisagreement(declared, read) == 1 + FirstDisagreement(declared[1..], read);
    }
  }

  /**
   * Tables after the first one that does not agree are never read: two readers
   * that agree on every table up to and including it give the same outcome.
   */
  lemma {:induction false} StopsAtFirstDisagreement(declared: seq<Table>, read1: Reader, read2: Reader)
    requires forall j :: 0 <= j < |declared| && j <= FirstDisagreement(declared, read1) ==>
               read1(declared[j].schema, declared[j].name) == read2(declared[j].schema, declared[j].name)
    ensures MatchesFrom(declared, read1) == MatchesFrom(declared, read2)
  {
    var k := FirstDisagreement(declared, read1);
    forall j | 0 <= j < k
      ensures LiveAgrees(declared[j], read2)
    {
      assert read1(declared[j].schema, declared[j].name) == read2(declared[j].schema, declared[j].name);
    }
    if k < |declared| {
      assert read1(declared[k].schema, declared[k].name) == read2(declared[k].schema, declared[k].name);
      assert !LiveAgrees(declared[k], read2);
    }
    assert FirstDisagreement(declared, read2) == k by {
      FirstDisagreementUnique(declared, read2, k);
    }
    MatchesFromDecidedByFirstDisagreement(declared, read1);
    MatchesFromDecidedByFirstDisagreement(declared, read2);
  }

  /** The first disagreement is the unique position with every earlier table agreeing and itself disagreeing (or the end). */
  lemma {:induction false} FirstDisagreementUnique(declared: seq<Table>, read: Reader, k: nat)
    requires k <= |declared|
    requires forall j :: 0 <= j < k ==> LiveAgrees(declared[j], read)
    requires k < |declared| ==> !LiveAgrees(declared[k], read)
    ensures FirstDisagreement(declared, read) == k
  {
    if k > 0 {
      FirstDisagreementUnique(declared[1..], read, k - 1);
    }
  }

  /**
   * When the database has every declared table, checking never raises, and the
   * verdict is whether every table matches.
   */
  lemma {:induction false} TotalReaderNeverRaises(declared: seq<Table>, read: Reader)
    requires forall i :: 0 <= i < |declared| ==> read(declared[i].schema, declared[i].name).Some?
    ensures MatchesFrom(declared, read).Success?
  {
    MatchesFromDecidedByFirstDisagreement(declared, read);
  }

  /** The reader builds each live table under the name it was asked for, as reflection does. */
  ghost predicate PreservesNames(read: Reader) {
    forall schema, name :: read(schema, name).Some? ==> read(schema, name).value.name == name
  }

  /**
   * With a name-preserving reader the table-name guard never fires: a declared
   * table agrees with the database iff its live table exists and every column
   * matches the live column at the same position, over the positions both have.
   */
  lemma NamePreservingReaderComparesColumnsOnly(t: Table, read: Reader)
    requires PreservesNames(read)
    ensures LiveAgrees(t, read) <==>
              && read(t.schema, t.name).Some?
              && var live := read(t.schema, t.name).value;
                 forall i :: 0 <= i < |live.columns| && i < |t.columns| ==>
                   CompareColumns(live.columns[i], t.columns[i])
  {
  }

  /** No live column holds a server clause object of the declared column at its position. */
  predicate FreshlyReflected(live: Table, declared: Table) {
    forall i :: 0 <= i < |live.columns| && i < |declared.columns| ==>
      NoSharedClauses(live.columns[i], declared.columns[i])
  }

  /**
   * Against freshly reflected clause objects, a declared table agrees with the
   * database only if none of its compared non-key columns has a server default
   * and none of its compared columns has an on-update clause.
   */
  lemma {:induction false} FreshClausesNeverMatch(t: Table, read: Reader)
    requires read(t.schema, t.name).Some? && FreshlyReflected(read(t.schema, t.name).value, t)
    requires LiveAgrees(t, read)
    ensures var live := read(t.schema, t.name).value;
      forall i :: 0 <= i < |live.columns| && i < |t.columns| ==>
        (t.columns[i].primaryKey || t.columns[i].serverDefault.None?) && t.columns[i].serverOnUpdate.None?
  {
    var live := read(t.schema, t.name).value;
    forall i | 0 <= i < |live.columns| && i < |t.columns|
      ensures (t.columns[i].primaryKey || t.columns[i].serverDefault.None?) && t.columns[i].serverOnUpdate.None?
    {
      DistinctClausesMatchOnlyWhenAbsent(live.columns[i], t.columns[i]);
    }
  }

  /** A database version: the tables its metadata declares, in the order they were added. */
  class Version {
    var metadata: seq<Table>

    /** The metadata holds exactly the tables the version's declaration step adds, in order. */
    constructor (declared: seq<Table>)
      ensures metadata == declared
    {
      metadata := declared;
    }

    /**
     * Reads each declared table from the database, by the declared schema and
     * name, and compares the live table (as `lhs`) with the declared one;
     * returns false at the first that does not match.
     */
    method Matches(read: Reader) returns (r: Result<bool, MatchError>)
      ensures r == MatchesFrom(metadata, read)
      ensures r == Success(true) <==> forall i :: 0 <= i < |metadata| ==> LiveAgrees(metadata[i], read)
    {
      var i := 0;
      while i < |metadata|
        invariant 0 <= i <= |metadata|
        invariant MatchesFrom(metadata, read) == MatchesFrom(metadata[i..], read)
      {
        var schemaTable := metadata[i];
        var engineTable := read(schemaTable.schema, schemaTable.name);
        if engineTable.None? {
          return Failure(NoSuchTable(schemaTable.schema, schemaTable.name));
        }
        var same := CompareTables(engineTable.value, schemaTable);
        if !same {
          return Success(false);
        }
        assert metadata[i..][1..] == metadata[i + 1..];
        i := i + 1;
      }
      return Success(true);
    }
  }
}
