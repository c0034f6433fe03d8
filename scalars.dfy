/**
 * Scanned column values and the helpers of utils/utils.go: the nullable
 * string constructors and the conversion of byte-slice values to strings
 * that runs on every row read from the audited database.
 */
module Scalars {

  /** A dynamically typed column value, one variant per Go type the driver hands back. */
  datatype Value =
    | Str(s: string)        // string
    | Bytes(b: seq<bv8>)    // []byte
    | Int(i: int)           // int64
    | Bool(flag: bool)      // bool
    | Nil                   // nil (SQL NULL)

  /** A scanned row: column name to value (a Go map[string]interface{}). */
  type Row = map<string, Value>

  /** sql.NullString */
  datatype NullString = NullString(str: string, valid: bool)

  /** The SQL NULL string. */
  function GetNull(): (n: NullString)
    ensures !n.valid && n.str == ""
  {
    NullString("", false)
  }

  /** A non-null string holding `s`. */
  function GetNullString(s: string): (n: NullString)
    ensures n.valid && n.str == s
    ensures n != GetNull()
  {
    NullString(s, true)
  }

  /**
   * Go's string(b): the string made of exactly the bytes of `b`; each byte
   * becomes one character with the same code.
   */
  function BytesToString(b: seq<bv8>): (s: string)
    ensures |s| == |b|
    ensures forall i :: 0 <= i < |b| ==> s[i] as int == b[i] as int
  {
    seq(|b|, i requires 0 <= i < |b| => (b[i] as int) as char)
  }

  /** The value a single map entry holds after the byte-to-string conversion. */
  function Normalize(v: Value): Value
  {
    if v.Bytes? then Str(BytesToString(v.b)) else v
  }

  /** The whole row after the conversion: the specification of MapBytesToString. */
  function NormalizeRow(m: Row): Row
  {
    map k | k in m :: Normalize(m[k])
  }

  /**
   * Rewrites every byte-slice value of `m` to its string conversion, keeping
   * the key set and every other value.
   */
  method MapBytesToString(m: Row) returns (r: Row)
    ensures r == NormalizeRow(m)
    ensures r.Keys == m.Keys
    ensures forall k :: k in r ==> !r[k].Bytes?
    ensures forall k :: k in m && m[k].Bytes? ==> r[k] == Str(BytesToString(m[k].b))
    ensures forall k :: k in m && !m[k].Bytes? ==> r[k] == m[k]
  {
    r := m;
    var todo := m.Keys;
    while todo != {}
      invariant todo <= m.Keys
      invariant r.Keys == m.Keys
      invariant forall k :: k in m && k !in todo ==> r[k] == Normalize(m[k])
      invariant forall k :: k in todo ==> r[k] == m[k]
      decreases todo
    {
      var k :| k in todo;
      var v := r[k];
      if v.Bytes? {
        r := r[k := Str(BytesToString(v.b))];
      }
      todo := todo - {k};
    }
  }

  /** A second conversion changes nothing. */
  lemma NormalizeRowIdempotent(m: Row)
    ensures NormalizeRow(NormalizeRow(m)) == NormalizeRow(m)
  {
    var once := NormalizeRow(m);
    assert forall k :: k in once ==> Normalize(once[k]) == once[k];
  }
}
