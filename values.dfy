/**
 * The Python values that flow through the query runner: `None`-or-string
 * settings, the scalars a database row holds, and row dictionaries built
 * with `dict(zip(cols, row))`.
 */
module Values {

  /** Python's `None` or a value. */
  datatype Option<+T> = None | Some(value: T)

  /** A scalar as the database driver hands it over. `Other` stands for any
      further type (float, date, ...) together with what `str()` prints for it. */
  datatype Value = Null | Bool(b: bool) | Int(i: int) | Text(s: string) | Other(shown: string)

  /** A row dictionary: column name to value. */
  type Record = map<string, Value>

  /** Decimal digits of a natural number, as `str()` prints them. */
  function NatToDecimal(n: nat): (digits: string)
    ensures digits != []
    ensures forall k :: 0 <= k < |digits| ==> '0' <= digits[k] <= '9'
    decreases n
  {
    var digit := ['0' + (n % 10) as char];
    if n < 10 then digit else NatToDecimal(n / 10) + digit
  }

  /** `str(v)`, which an f-string uses for every interpolated value. */
  function Str(v: Value): (shown: string)
    ensures v.Int? ==> shown != [] && (shown[0] == '-' <==> v.i < 0)
    ensures v.Int? ==> forall k :: 0 < k < |shown| ==> '0' <= shown[k] <= '9'
  {
    match v
    case Null => "None"
    case Bool(b) => if b then "True" else "False"
    case Int(i) => if i < 0 then "-" + NatToDecimal(-i) else NatToDecimal(i)
    case Text(s) => s
    case Other(shown) => shown
  }

  function Min(a: nat, b: nat): nat { if a <= b then a else b }

  /** The dictionary built from the first `n` pairs of `zip(cols, row)`. */
  function ZipPrefix(cols: seq<string>, row: seq<Value>, n: nat): (r: Record)
    requires n <= |cols| && n <= |row|
    ensures forall k :: k in r ==> k in cols[..n] && r[k] in row[..n]
  {
    if n == 0 then map[] else ZipPrefix(cols, row, n - 1)[cols[n - 1] := row[n - 1]]
  }

  /** `dict(zip(cols, row))`: `zip` stops at the shorter sequence, and a later
      pair overrides an earlier one with the same column name. */
  function ZipDict(cols: seq<string>, row: seq<Value>): (r: Record)
    ensures forall k :: k in r ==> k in cols && r[k] in row
    ensures |cols| == 0 || |row| == 0 ==> r == map[]
  {
    ZipPrefix(cols, row, Min(|cols|, |row|))
  }

  /** The keys of the zipped dictionary are the column names that got a value. */
  lemma {:induction false} ZipPrefixKeys(cols: seq<string>, row: seq<Value>, n: nat)
    requires n <= |cols| && n <= |row|
    ensures ZipPrefix(cols, row, n).Keys == set j | 0 <= j < n :: cols[j]
  {
    if n > 0 {
      ZipPrefixKeys(cols, row, n - 1);
      assert (set j | 0 <= j < n :: cols[j]) == (set j | 0 <= j < n - 1 :: cols[j]) + {cols[n - 1]};
    }
  }

  /** A column's value is the row's value at the LAST position carrying that column name. */
  lemma {:induction false} ZipPrefixAt(cols: seq<string>, row: seq<Value>, n: nat, j: nat)
    requires n <= |cols| && n <= |row|
    requires j < n
    requires forall l :: j < l < n ==> cols[l] != cols[j]
    ensures cols[j] in ZipPrefix(cols, row, n)
    ensures ZipPrefix(cols, row, n)[cols[j]] == row[j]
  {
    if j < n - 1 {
      ZipPrefixAt(cols, row, n - 1, j);
    }
  }

  /** Key set and lookup of `dict(zip(cols, row))`. */
  lemma ZipDictAt(cols: seq<string>, row: seq<Value>, j: nat)
    requires j < |cols| && j < |row|
    requires forall l :: j < l < Min(|cols|, |row|) ==> cols[l] != cols[j]
    ensures ZipDict(cols, row).Keys == set l | 0 <= l < Min(|cols|, |row|) :: cols[l]
    ensures cols[j] in ZipDict(cols, row) && ZipDict(cols, row)[cols[j]] == row[j]
  {
    ZipPrefixKeys(cols, row, Min(|cols|, |row|));
    ZipPrefixAt(cols, row, Min(|cols|, |row|), j);
  }

  /** `[dict(zip(cols, row)) for row in rows]`. */
  function RowsToRecords(cols: seq<string>, rows: seq<seq<Value>>): (records: seq<Record>)
    ensures |records| == |rows|
    ensures forall i :: 0 <= i < |rows| ==> records[i] == ZipDict(cols, rows[i])
  {
    seq(|rows|, i requires 0 <= i < |rows| => ZipDict(cols, rows[i]))
  }

  /** `{"message": text}` */
  function MessageRecord(text: string): Record { map["message" := Text(text)] }

  /** `{"error": str(e)}` */
  function ErrorRecord(text: string): Record { map["error" := Text(text)] }
}
