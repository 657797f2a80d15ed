/**
 * The structure of a table as the comparator sees it: a declared table built
 * by a version's metadata, or a live table reflected from the database.
 */
module Schema {
  import opened Wrappers

  /**
   * The generic SQL type a column's type reduces to (the class returned by its
   * `as_generic()`). Text, Unicode, UnicodeText and Enum are subclasses of
   * String, SmallInteger and BigInteger subclasses of Integer; the remaining
   * constructors are generic types outside both families, `Other` naming any
   * not listed.
   */
  datatype GenericType =
    | String | Text | Unicode | UnicodeText | Enum
    | Integer | SmallInteger | BigInteger
    | Boolean | DateTime | Date | Time | Float | Numeric
    | Other(typeName: string)

  /** The generic type is String or one of its subclasses (an `isinstance` test). */
  predicate IsStringKind(t: GenericType) {
    t.String? || t.Text? || t.Unicode? || t.UnicodeText? || t.Enum?
  }

  /** The generic type is Integer or one of its subclasses (an `isinstance` test). */
  predicate IsIntegerKind(t: GenericType) {
    t.Integer? || t.SmallInteger? || t.BigInteger?
  }

  /**
   * A server-side default or on-update clause object. It defines no equality
   * of its own, so two clauses are equal only when they are the same object:
   * Dafny's reference equality on this class.
   */
  class ServerClause {
    const text: string

    constructor (text: string)
      ensures this.text == text
    {
      this.text := text;
    }
  }

  /**
   * One column. `serverDefault` and `serverOnUpdate` are the server-side
   * default and on-update clauses, absent when the column has none;
   * `length` is the declared length of a string type (absent for `String()`).
   */
  datatype Column = Column(
    name: string,
    primaryKey: bool,
    serverDefault: Option<ServerClause>,
    serverOnUpdate: Option<ServerClause>,
    generic: GenericType,
    length: Option<nat>)

  /** A table: the schema it lives in (absent for the default schema), its name and its ordered columns. */
  datatype Table = Table(schema: Option<string>, name: string, columns: seq<Column>)
}
