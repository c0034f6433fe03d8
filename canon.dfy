/**
 * The row canonicaliser of audit.go: the optional primary key joined from
 * the configured key columns, the JSON dump of a row and its MD5 row hash.
 * json.Marshal and the MD5 digest are library code and stay uninterpreted:
 * they are function values of a `Library` handed to the engine.
 */
module Canon {
  import opened Scalars
  import opened Format

  /** An MD5 digest: 16 bytes. */
  type Digest = d: seq<bv8> | |d| == 16 witness seq(16, i => 0 as bv8)

  /**
   * The collaborators the engine calls and this model does not interpret:
   * json.Marshal of a row, md5.Sum, and the `%s` rendering of a
   * time.Duration (given in nanoseconds).
   */
  datatype Library = Library(
    marshal: Row -> seq<bv8>,
    md5: seq<bv8> -> Digest,
    formatDuration: int -> string)

  /** rowData[column]: a missing column reads as nil. */
  function Lookup(row: Row, column: string): Value
  {
    if column in row then row[column] else Nil
  }

  /** The `%v` rendering of each key column, in key-column order. */
  function KeyParts(row: Row, columns: seq<string>): seq<string>
  {
    seq(|columns|, i requires 0 <= i < |columns| => FormatValue(Lookup(row, columns[i])))
  }

  /** The primary key of a row: its key-column values joined with `sep`. */
  function PrimaryKey(row: Row, columns: seq<string>, sep: string): string
  {
    Join(KeyParts(row, columns), sep)
  }

  /**
   * The primary key is empty exactly when there are no key columns, or every
   * key column holds the empty string and either there is just one key
   * column or the separator is empty. In particular a nil or missing key
   * column never gives an empty key ("<nil>").
   */
  lemma PrimaryKeyEmptyIff(row: Row, columns: seq<string>, sep: string)
    ensures PrimaryKey(row, columns, sep) == "" <==>
              |columns| == 0 ||
              ((forall i :: 0 <= i < |columns| ==> Lookup(row, columns[i]) == Str("")) &&
               (|columns| == 1 || sep == ""))
  {
    var parts := KeyParts(row, columns);
    JoinEmptyIff(parts, sep);
    assert forall i :: 0 <= i < |columns| ==> (parts[i] == "" <==> Lookup(row, columns[i]) == Str(""));
  }

  /** Two key columns holding "x" and "y", joined with "|", give "x|y". */
  lemma TwoColumnKey()
    ensures PrimaryKey(map["a" := Str("x"), "b" := Str("y")], ["a", "b"], "|") == "x|y"
  {
    var row := map["a" := Str("x"), "b" := Str("y")];
    assert KeyParts(row, ["a", "b"]) == ["x", "y"];
  }

  /** Two empty key columns give the separator alone, which is not empty. */
  lemma TwoEmptyColumnsKey()
    ensures PrimaryKey(map["a" := Str(""), "b" := Str("")], ["a", "b"], "|") == "|"
  {
    var row := map["a" := Str(""), "b" := Str("")];
    assert KeyParts(row, ["a", "b"]) == ["", ""];
  }

  /** With an empty separator, two empty key columns give the empty key, which is fatal. */
  lemma TwoEmptyColumnsNoSeparator()
    ensures PrimaryKey(map["a" := Str(""), "b" := Str("")], ["a", "b"], "") == ""
  {
    var row := map["a" := Str(""), "b" := Str("")];
    assert KeyParts(row, ["a", "b"]) == ["", ""];
  }

  /** The JSON dump of a row, as text. */
  function RowDump(lib: Library, row: Row): string
  {
    BytesToString(lib.marshal(row))
  }

  /** `%x` of the MD5 digest of the JSON dump. */
  function RowHash(lib: Library, row: Row): (h: string)
    ensures |h| == 32
  {
    Hex(lib.md5(lib.marshal(row)))
  }

  /** Two rows have the same row hash exactly when their dumps have the same digest. */
  lemma RowHashMatchesDigest(lib: Library, r1: Row, r2: Row)
    ensures RowHash(lib, r1) == RowHash(lib, r2) <==> lib.md5(lib.marshal(r1)) == lib.md5(lib.marshal(r2))
  {
    if RowHash(lib, r1) == RowHash(lib, r2) {
      HexInjective(lib.md5(lib.marshal(r1)), lib.md5(lib.marshal(r2)));
    }
  }
}
