/**
 * Structural comparison of two tables and of two columns, as `compareTables`
 * and `compareColumns` of the database `Version` class perform it.
 */
module Comparator {
  import opened Wrappers
  import opened Schema

  // ---------------------------------------------------------------------------
  // Columns
  // ---------------------------------------------------------------------------

  /** The guard of the column comparison that rejected a pair (the diagnostic it prints). */
  datatype Mismatch =
    | NameDiffers
    | PrimaryKeyDiffers
    | ServerDefaultDiffers
    | ServerOnUpdateDiffers
    | TypeDiffers
    | LengthDiffers
    | UnexpectedType

  /** The generic types the comparison knows how to refine: String and Integer kinds. */
  predicate Supported(t: GenericType) {
    IsStringKind(t) || IsIntegerKind(t)
  }

  /** The position of each check in the order the comparison runs them. */
  function Rank(m: Mismatch): nat {
    match m
    case NameDiffers => 0
    case PrimaryKeyDiffers => 1
    case ServerDefaultDiffers => 2
    case ServerOnUpdateDiffers => 3
    case TypeDiffers => 4
    case LengthDiffers => 5
    case UnexpectedType => 6
  }

  /** The pair passes one check, judged on its own, whatever the other checks say. */
  predicate Passes(m: Mismatch, lhs: Column, rhs: Column) {
    match m
    case NameDiffers => lhs.name == rhs.name
    case PrimaryKeyDiffers => lhs.primaryKey == rhs.primaryKey
    case ServerDefaultDiffers => lhs.primaryKey || lhs.serverDefault == rhs.serverDefault
    case ServerOnUpdateDiffers => lhs.serverOnUpdate == rhs.serverOnUpdate
    case TypeDiffers => lhs.generic == rhs.generic
    case LengthDiffers => !IsStringKind(lhs.generic) || lhs.length == rhs.length
    case UnexpectedType => Supported(lhs.generic)
  }

  /**
   * The guards of the column comparison, run in order, each returning early:
   * the reported check is the first, in that order, that the pair fails, and
   * None means the pair passes every check.
   */
  function ColumnMismatch(lhs: Column, rhs: Column): (r: Option<Mismatch>)
    ensures r.Some? ==> !Passes(r.value, lhs, rhs)
    ensures r.Some? ==> forall m :: Rank(m) < Rank(r.value) ==> Passes(m, lhs, rhs)
    ensures r.None? ==> forall m :: Passes(m, lhs, rhs)
  {
    if lhs.name != rhs.name then Some(NameDiffers)
    else if lhs.primaryKey != rhs.primaryKey then Some(PrimaryKeyDiffers)
    else if !lhs.primaryKey && lhs.serverDefault != rhs.serverDefault then Some(ServerDefaultDiffers)
    else if lhs.serverOnUpdate != rhs.serverOnUpdate then Some(ServerOnUpdateDiffers)
    else if lhs.generic != rhs.generic then Some(TypeDiffers)
    else if IsStringKind(lhs.generic) then
      (if lhs.length != rhs.length then Some(LengthDiffers) else None)
    else if IsIntegerKind(lhs.generic) then None
    else Some(UnexpectedType)
  }

  /**
   * Two columns agree attribute by attribute: same name and key flag, same
   * server default unless they are primary keys, same on-update expression,
   * same supported generic type, and same length when that type is a string.
   */
  predicate ColumnsAgree(lhs: Column, rhs: Column) {
    && lhs.name == rhs.name
    && lhs.primaryKey == rhs.primaryKey
    && (lhs.primaryKey || lhs.serverDefault == rhs.serverDefault)
    && lhs.serverOnUpdate == rhs.serverOnUpdate
    && lhs.generic == rhs.generic
    && Supported(lhs.generic)
    && (IsStringKind(lhs.generic) ==> lhs.length == rhs.length)
  }

  /** Whether two columns are structurally equal: no guard rejects them. */
  function CompareColumns(lhs: Column, rhs: Column): (r: bool)
    ensures r <==> ColumnsAgree(lhs, rhs)
  {
    ColumnMismatch(lhs, rhs).None?
  }

  /** A differing name is reported first; with equal names, a differing key flag is. */
  lemma NameAndKeyCheckedFirst(lhs: Column, rhs: Column)
    ensures lhs.name != rhs.name ==> ColumnMismatch(lhs, rhs) == Some(NameDiffers)
    ensures lhs.name == rhs.name && lhs.primaryKey != rhs.primaryKey ==>
              ColumnMismatch(lhs, rhs) == Some(PrimaryKeyDiffers)
    ensures lhs.name != rhs.name || lhs.primaryKey != rhs.primaryKey ==> !CompareColumns(lhs, rhs)
  {
  }

  /**
   * Primary-key columns never have their server defaults compared: replacing
   * the defaults on both sides leaves the verdict unchanged.
   */
  lemma PrimaryKeyIgnoresDefault(lhs: Column, rhs: Column, d1: Option<ServerClause>, d2: Option<ServerClause>)
    requires lhs.primaryKey && rhs.primaryKey
    ensures CompareColumns(lhs.(serverDefault := d1), rhs.(serverDefault := d2)) == CompareColumns(lhs, rhs)
  {
  }

  /** The on-update expressions are compared for every column, key or not. */
  lemma OnUpdateAlwaysCompared(lhs: Column, rhs: Column)
    requires lhs.serverOnUpdate != rhs.serverOnUpdate
    ensures !CompareColumns(lhs, rhs)
    ensures lhs.name == rhs.name && lhs.primaryKey == rhs.primaryKey &&
            (lhs.primaryKey || lhs.serverDefault == rhs.serverDefault) ==>
              ColumnMismatch(lhs, rhs) == Some(ServerOnUpdateDiffers)
  {
  }

  /** The two columns hold no server clause object in common. */
  predicate NoSharedClauses(lhs: Column, rhs: Column) {
    && (lhs.serverDefault.Some? && rhs.serverDefault.Some? ==> lhs.serverDefault.value != rhs.serverDefault.value)
    && (lhs.serverOnUpdate.Some? && rhs.serverOnUpdate.Some? ==> lhs.serverOnUpdate.value != rhs.serverOnUpdate.value)
  }

  /**
   * Clauses are compared as objects, so between columns that share no clause
   * object (a reflected column and a declared one) a match needs the server
   * defaults absent on both sides unless the columns are keys, and the
   * on-update clauses absent on both sides, whatever their text.
   */
  lemma DistinctClausesMatchOnlyWhenAbsent(lhs: Column, rhs: Column)
    requires NoSharedClauses(lhs, rhs)
    ensures CompareColumns(lhs, rhs) ==>
              && (lhs.primaryKey || (lhs.serverDefault.None? && rhs.serverDefault.None?))
              && lhs.serverOnUpdate.None? && rhs.serverOnUpdate.None?
  {
  }

  /** A non-key column with a different server default on the other side never matches. */
  lemma DefaultComparedForOtherColumns(lhs: Column, rhs: Column)
    requires !lhs.primaryKey && lhs.serverDefault != rhs.serverDefault
    ensures !CompareColumns(lhs, rhs)
  {
  }

  /**
   * Only String and Integer kinds can match: different generic types are
   * rejected, and any other generic type is rejected even against itself.
   */
  lemma OnlyStringAndIntegerMatch(lhs: Column, rhs: Column)
    ensures CompareColumns(lhs, rhs) ==> lhs.generic == rhs.generic && Supported(lhs.generic)
    ensures !Supported(lhs.generic) ==> !CompareColumns(lhs, lhs)
    ensures CompareColumns(lhs, rhs) && IsStringKind(lhs.generic) ==> lhs.length == rhs.length
  {
  }

  /** Integer kinds need nothing beyond the common checks: lengths are ignored. */
  lemma IntegerIgnoresLength(lhs: Column, rhs: Column, n1: Option<nat>, n2: Option<nat>)
    requires IsIntegerKind(lhs.generic)
    ensures CompareColumns(lhs.(length := n1), rhs.(length := n2)) == CompareColumns(lhs, rhs)
  {
  }

  /**
   * Swapping the sides never changes the verdict, nor which guard reports the
   * mismatch: the key flags are equal before the default guard reads only the
   * left flag, and the generic types are equal before the kind tests read only
   * the left type.
   */
  lemma ColumnMismatchSymmetric(lhs: Column, rhs: Column)
    ensures ColumnMismatch(lhs, rhs) == ColumnMismatch(rhs, lhs)
    ensures CompareColumns(lhs, rhs) == CompareColumns(rhs, lhs)
  {
  }

  /** A column matches itself exactly when its generic type is supported. */
  lemma CompareColumnsReflexive(c: Column)
    ensures CompareColumns(c, c) <==> Supported(c.generic)
  {
  }

  /** Column matching is transitive, so on supported columns it is an equivalence. */
  lemma CompareColumnsTransitive(a: Column, b: Column, c: Column)
    requires CompareColumns(a, b) && CompareColumns(b, c)
    ensures CompareColumns(a, c)
  {
  }

  // ---------------------------------------------------------------------------
  // Tables
  // ---------------------------------------------------------------------------

  function Min(a: nat, b: nat): nat {
    if a <= b then a else b
  }

  /** Python's `zip`: pairs elements by position and stops at the end of the shorter sequence. */
  function Zip<A, B>(xs: seq<A>, ys: seq<B>): (r: seq<(A, B)>)
    ensures |r| == Min(|xs|, |ys|)
    ensures forall i :: 0 <= i < |r| ==> r[i] == (xs[i], ys[i])
  {
    if xs == [] || ys == [] then []
    else [(xs[0], ys[0])] + Zip(xs[1..], ys[1..])
  }

  /**
   * Two tables match when their names are equal and every column matches the
   * column at the same position on the other side, for the positions both
   * tables have. The schema is not compared.
   */
  predicate TablesMatch(lhs: Table, rhs: Table) {
    && lhs.name == rhs.name
    && forall i :: 0 <= i < |lhs.columns| && i < |rhs.columns| ==>
         CompareColumns(lhs.columns[i], rhs.columns[i])
  }

  /**
   * Compares the names, then walks the zipped column pairs and returns false
   * at the first pair that does not match.
   */
  method CompareTables(lhs: Table, rhs: Table) returns (ok: bool)
    ensures ok <==> TablesMatch(lhs, rhs)
    ensures lhs.name != rhs.name ==> !ok
  {
    if lhs.name != rhs.name {
      return false;
    }
    var pairs := Zip(lhs.columns, rhs.columns);
    for k := 0 to |pairs|
      invariant forall j :: 0 <= j < k ==> CompareColumns(pairs[j].0, pairs[j].1)
    {
      if !CompareColumns(pairs[k].0, pairs[k].1) {
        return false;
      }
    }
    return true;
  }

  /** Swapping the sides of a table comparison never changes the verdict. */
  lemma TablesMatchSymmetric(lhs: Table, rhs: Table)
    ensures TablesMatch(lhs, rhs) == TablesMatch(rhs, lhs)
  {
    if TablesMatch(lhs, rhs) {
      forall i | 0 <= i < |rhs.columns| && i < |lhs.columns|
        ensures CompareColumns(rhs.columns[i], lhs.columns[i])
      {
        ColumnMismatchSymmetric(lhs.columns[i], rhs.columns[i]);
      }
    }
    if TablesMatch(rhs, lhs) {
      forall i | 0 <= i < |lhs.columns| && i < |rhs.columns|
        ensures CompareColumns(lhs.columns[i], rhs.columns[i])
      {
        ColumnMismatchSymmetric(rhs.columns[i], lhs.columns[i]);
      }
    }
  }

  /**
   * Columns beyond the end of the shorter list are never looked at: appending
   * any columns to the longer side leaves the verdict unchanged, on either side.
   */
  lemma ExtraColumnsIgnored(lhs: Table, rhs: Table, extra: seq<Column>)
    ensures |lhs.columns| <= |rhs.columns| ==>
              TablesMatch(lhs, rhs.(columns := rhs.columns + extra)) == TablesMatch(lhs, rhs)
    ensures |rhs.columns| <= |lhs.columns| ==>
              TablesMatch(lhs.(columns := lhs.columns + extra), rhs) == TablesMatch(lhs, rhs)
  {
    var longR := rhs.columns + extra;
    var longL := lhs.columns + extra;
    assert forall i :: 0 <= i < |rhs.columns| ==> longR[i] == rhs.columns[i];
    assert forall i :: 0 <= i < |lhs.columns| ==> longL[i] == lhs.columns[i];
  }

  /**
   * A table whose columns are a prefix of another same-named table's columns
   * matches it, provided the shared columns have supported types; in
   * particular a table with no columns matches every table of its name.
   */
  lemma PrefixMatches(t: Table, n: nat)
    requires n <= |t.columns|
    requires forall i :: 0 <= i < n ==> Supported(t.columns[i].generic)
    ensures TablesMatch(t.(columns := t.columns[..n]), t)
    ensures TablesMatch(t, t.(columns := t.columns[..n]))
  {
    forall i | 0 <= i < n
      ensures CompareColumns(t.columns[i], t.columns[i])
    {
      CompareColumnsReflexive(t.columns[i]);
    }
  }

  /** A table matches itself exactly when every one of its columns has a supported type. */
  lemma TablesMatchReflexive(t: Table)
    ensures TablesMatch(t, t) <==> forall i :: 0 <= i < |t.columns| ==> Supported(t.columns[i].generic)
  {
    if TablesMatch(t, t) {
      forall i | 0 <= i < |t.columns|
        ensures Supported(t.columns[i].generic)
      {
        CompareColumnsReflexive(t.columns[i]);
      }
    } else {
      var i :| 0 <= i < |t.columns| && !CompareColumns(t.columns[i], t.columns[i]);
      CompareColumnsReflexive(t.columns[i]);
    }
  }
}
