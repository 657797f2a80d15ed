# Schema comparison of a database version

This project models the schema comparator of PyYAUL's database `Version` class
(`pyyaul/db/version.py`). A version declares its tables in an SQLAlchemy
`MetaData`. `matches` then decides whether a live database has the same
structure: it reads each declared table from the database by schema and name,
and compares the live table (left side) with the declared one (right side).

- `compareColumns` is a chain of guards, each returning early. It compares the
  name, the primary-key flag, the server default (for non-key columns only),
  the server on-update expression and the generic type. Then it applies a
  per-type refinement: String kinds need equal lengths, Integer kinds need
  nothing more, and every other type is rejected. The model is
  `Comparator.ColumnMismatch`, which returns the guard that fired, and
  `Comparator.CompareColumns`, which is proved equal to an attribute-by-attribute
  agreement predicate.
- `compareTables` compares table names and then the zipped column pairs. The
  model is a loop method over `Zip`, proved equal to `TablesMatch`. `zip` stops
  at the shorter list, so a live table that lacks a declared table's trailing
  columns still matches it (`Scenarios.OlderDatabaseMatchesNewerDeclaration`),
  and table matching is not transitive.
- `matches` is a loop method on the `Version` class, proved equal to the
  recursive outcome `MatchesFrom`. The outcome is characterised by the first
  declared table the database does not agree with.

The live database is a parameter `read: (schema, name) -> Option<Table>`.
Reflecting a table the database does not have raises in the source; the model
returns `Failure(NoSuchTable(schema, name))`. A missing table is therefore an
error, not a false verdict. It is raised only if every earlier table matched.

`as_generic()` is modelled as the `GenericType` of a column. The `isinstance`
tests at lines 113 and 117 also accept subclasses: Text, Unicode, UnicodeText
and Enum take the String branch, and SmallInteger and BigInteger take the
Integer branch.

Server defaults and on-update expressions are clause objects that define no
equality of their own. The `!=` tests at lines 104 and 107 therefore compare
identity, and the model uses a class `ServerClause` whose reference equality
does the same. A reflected table's clauses are new objects, so in `matches` a
non-key column matches only when neither side has a server default, and a
column with an on-update clause on either side never matches, whatever the
clause text (`DbVersion.FreshClausesNeverMatch`).

The model follows the code in three places where a schema comparator might be
expected to do otherwise. DateTime columns are rejected outright; there is no
timezone comparison. Nullability is never compared. An absent live table raises
instead of being reported as a mismatch.

## Model

| member | source | states |
|---|---|---|
| `Comparator.ColumnMismatch` | pyyaul/db/version.py:98-121 | the reported check is one the pair fails, every check earlier in source order passes, and nothing is reported only when the pair passes every check |
| `Comparator.CompareColumns` | pyyaul/db/version.py:97-122 | two columns match iff names and key flags are equal, server defaults are the same clause object unless both are keys, on-update clauses are the same object, generic types are equal and String or Integer kinds, and String kinds have equal lengths |
| `Comparator.DistinctClausesMatchOnlyWhenAbsent` | pyyaul/db/version.py:104-109 | between columns sharing no clause object, a match needs both server defaults absent (unless keys) and both on-update clauses absent |
| `Comparator.NameAndKeyCheckedFirst` | pyyaul/db/version.py:98-103 | a name difference is the reported mismatch; with equal names, a key-flag difference is; either makes the comparison false |
| `Comparator.PrimaryKeyIgnoresDefault` | pyyaul/db/version.py:104-106 | for two key columns, changing either server default never changes the verdict |
| `Comparator.DefaultComparedForOtherColumns` | pyyaul/db/version.py:104-106 | a non-key column whose server default differs from the other side's never matches |
| `Comparator.OnUpdateAlwaysCompared` | pyyaul/db/version.py:107-109 | different on-update expressions always give false, key or not; after the name, key and default guards pass, they are the reported mismatch |
| `Comparator.OnlyStringAndIntegerMatch` | pyyaul/db/version.py:110-122 | a match implies equal, supported generic types and, for String kinds, equal lengths; a column of any other type does not match even itself |
| `Comparator.IntegerIgnoresLength` | pyyaul/db/version.py:117-118 | for Integer kinds the lengths on either side never affect the verdict |
| `Comparator.ColumnMismatchSymmetric` | pyyaul/db/version.py:97-122 | swapping the sides changes neither the verdict nor the guard that reports the mismatch |
| `Comparator.CompareColumnsReflexive` | pyyaul/db/version.py:97-122 | a column matches itself iff its generic type is a String or Integer kind |
| `Comparator.CompareColumnsTransitive` | pyyaul/db/version.py:97-122 | column matching is transitive |
| `Comparator.Zip` | pyyaul/db/version.py:92 | the zipped pairs have the length of the shorter list, and pair i holds the i-th element of each list |
| `Comparator.CompareTables` | pyyaul/db/version.py:88-95 | returns true iff the names are equal and every column matches the column at the same position, over the positions both tables have; different names give false |
| `Comparator.TablesMatchSymmetric` | pyyaul/db/version.py:88-95 | swapping the tables never changes the verdict |
| `Comparator.ExtraColumnsIgnored` | pyyaul/db/version.py:92-95 | appending columns to the longer side, on either side, never changes the verdict |
| `Comparator.PrefixMatches` | pyyaul/db/version.py:92-95 | a table whose columns are a prefix of a same-named table's supported columns matches it, in both orders |
| `Comparator.TablesMatchReflexive` | pyyaul/db/version.py:88-95 | a table matches itself iff every column has a String or Integer kind |
| `DbVersion.MatchesFrom` | pyyaul/db/version.py:76-86 | the outcome is true iff every declared table is present in the database and the live table matches it as the left side |
| `DbVersion.FirstDisagreement` | pyyaul/db/version.py:77-85 | every table before the returned position agrees with the database, and the table at it does not |
| `DbVersion.MatchesFromDecidedByFirstDisagreement` | pyyaul/db/version.py:77-86 | with no disagreeing table the outcome is true; if the first one is missing, it raises naming that table; if it is present, the outcome is false |
| `DbVersion.StopsAtFirstDisagreement` | pyyaul/db/version.py:84-85 | tables after the first disagreeing one are never read: readers that agree up to it give the same outcome |
| `DbVersion.NamePreservingReaderComparesColumnsOnly` | pyyaul/db/version.py:78-95 | when the reader builds tables under the requested name, a declared table agrees iff its live table exists and the columns match position by position |
| `DbVersion.FreshClausesNeverMatch` | pyyaul/db/version.py:78-109 | a declared table that agrees with freshly reflected columns has no server default on a compared non-key column and no on-update clause on a compared column |
| `DbVersion.TotalReaderNeverRaises` | pyyaul/db/version.py:78-83 | when the database has every declared table, the check returns a verdict and does not raise |
| `DbVersion.Version.constructor` | pyyaul/db/version.py:61-63 | the metadata holds the tables the version declares, in order |
| `DbVersion.Version.Matches` | pyyaul/db/version.py:71-86 | the loop returns the outcome `MatchesFrom` gives for the metadata; true iff every declared table is present and matches |
| `Scenarios.ReflectedKeyDefaultIgnored` | pyyaul/db/version.py:104 | a live key column reflected with a sequence default matches the declared key column, which has none |
| `Scenarios.ReflectedDefaultRejected` | pyyaul/db/version.py:104-106 | a non-key column whose reflected default is a different object with the same text is rejected at the default check |
| `Scenarios.EnumColumnsOfEqualLengthMatch` | pyyaul/db/version.py:113-116 | two Enum columns of equal length take the String branch and match |
| `Scenarios.FreshDatabaseMatches` | pyyaul/db/version.py:71-86 | a database holding exactly the declared `accounts.user` table matches the version |
| `Scenarios.MissingTableRaises` | pyyaul/db/version.py:78-83 | checking against a database without `accounts.user` raises, naming it |
| `Scenarios.OlderDatabaseMatchesNewerDeclaration` | pyyaul/db/version.py:92-95 | a database without the newer version's trailing `displayname` column still matches the newer version |
| `Scenarios.TablesMatchNotTransitive` | pyyaul/db/version.py:92-95 | a column-less table matches two same-named tables that do not match each other |
| `Scenarios.ReorderedColumnsDoNotMatch` | pyyaul/db/version.py:92-93 | the same columns in another order do not match, because columns are paired by position |
| `Scenarios.BooleanColumnNeverMatches` | pyyaul/db/version.py:119-121 | a Boolean column compared with an identical copy is rejected as an unexpected type |

## Left out

- Diagnostics (`print` at lines 90 and 99-120): the model returns only the `Mismatch` tag of the guard that fired, not the message text.
- Reflection (`Table(..., autoload_with=engine)`, lines 78-83) is the `Reader` parameter. The `engineMetadata` collection that the reflected tables are added to (line 76) is discarded by the source and is not modelled.
- Server defaults and on-update expressions are `ServerClause` objects compared by identity. Their text is kept but never compared, because the source never compares it.
- `as_generic()` and SQLAlchemy's type classes are abstracted as the `GenericType` enumeration.
- `as_generic()` raises at line 110 for a type with no generic equivalent. Examples are the `NullType` that reflection gives an unrecognised column type, and dialect-only types such as PostgreSQL `INET`. The model has no error path for columns. Every column carries a `GenericType`, and such a type is written `Other(...)`, which the comparison rejects with a false verdict instead of raising.
- The `Reader` type also allows readers that return a table under another name. Reflection only ever produces the name-preserving case, which `DbVersion.PreservesNames` states and `DbVersion.NamePreservingReaderComparesColumnsOnly` covers.
- Column attributes that the source never compares (nullability, uniqueness, indexes, foreign keys, autoincrement, timezone) are not in `Column`.
- `self._tables` (line 77) is not defined in the file. It is modelled as the metadata's tables in the order the version declares them. The `MetaData` error for a table declared twice is not modelled.
- `_initMetaData` (lines 65-69) is supplied by each version; the declared tables are a constructor parameter.
- Import guards (lines 5-20) are module plumbing.
- The base class `pyyaul.base.version.Version` (line 6) is not part of this model. Its chain walk, migration driver and update procedures are not modelled, and neither are the DDL helpers.
- `pyyaul/db/orm.py` (reflection and generated mapped classes) and `__init__.py` (import-path guard) are not part of this model.
