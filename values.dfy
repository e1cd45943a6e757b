/**
 * The dynamic values that flow through the core: what the database driver puts in a
 * result row, what `json.loads` produces, and what the serializers hand back. A row is
 * a Python `dict`: an insertion-ordered list of fields whose keys are distinct.
 */
module Values {
  import opened Wrappers
  import IsoTime

  newtype byte = x: int | 0 <= x < 256

  datatype Value =
    | VNull                           // None
    | VBool(b: bool)
    | VInt(i: int)
    | VFloat(f: real)                 // a Python float; binary rounding is not modelled
    | VDecimal(d: real)               // decimal.Decimal
    | VStr(s: string)
    | VBytes(bytes: seq<byte>)        // bytes or bytearray
    | VDateTime(dt: IsoTime.DateTime) // datetime.datetime (naive)
    | VDate(date: IsoTime.Date)       // datetime.date
    | VList(items: seq<Value>)
    | VObject(members: seq<Field>)    // a JSON object

  datatype Field = Field(key: string, value: Value)

  function Keys(fields: seq<Field>): (ks: seq<string>)
    ensures |ks| == |fields|
  {
    seq(|fields|, i requires 0 <= i < |fields| => fields[i].key)
  }

  predicate DistinctKeys(fields: seq<Field>) {
    forall i, j :: 0 <= i < j < |fields| ==> fields[i].key != fields[j].key
  }

  type Row = r: seq<Field> | DistinctKeys(r)

  /** Position of `key` in `fields`, as a dict lookup finds it. */
  function IndexOf(fields: seq<Field>, key: string): (r: Option<nat>)
    ensures r.Some? ==> r.value < |fields| && fields[r.value].key == key
    ensures r.Some? ==> forall j :: 0 <= j < r.value ==> fields[j].key != key
    ensures r.None? <==> key !in Keys(fields)
  {
    if |fields| == 0 then None
    else
      assert Keys(fields) == [fields[0].key] + Keys(fields[1..]);
      if fields[0].key == key then Some(0)
      else match IndexOf(fields[1..], key)
      case None => None
      case Some(j) => Some(j + 1)
  }

  /** `row[key]`, or `None` for a missing key. */
  function Get(row: seq<Field>, key: string): (r: Option<Value>)
    ensures r.Some? <==> key in Keys(row)
  {
    match IndexOf(row, key)
    case None => None
    case Some(i) => Some(row[i].value)
  }

  /** `row.get(key)`: the value, or `None` (VNull) when the key is missing. */
  function GetOrNull(row: seq<Field>, key: string): Value {
    match Get(row, key)
    case None => VNull
    case Some(v) => v
  }

  lemma GetAt(row: Row, i: nat)
    requires i < |row|
    ensures Get(row, row[i].key) == Some(row[i].value)
  {
    var k := IndexOf(row, row[i].key);
    assert row[i].key in Keys(row) by { assert Keys(row)[i] == row[i].key; }
  }

  /**
   * `row[key] = v`: an existing key keeps its position and takes the new value, a new
   * key is appended. Every other key keeps its value.
   */
  function Set(row: Row, key: string, v: Value): (r: Row)
    ensures Get(r, key) == Some(v)
    ensures forall k :: k != key ==> Get(r, k) == Get(row, k)
    ensures Keys(r) == if key in Keys(row) then Keys(row) else Keys(row) + [key]
    ensures key !in Keys(row) ==> r == row + [Field(key, v)]
  {
    match IndexOf(row, key)
    case Some(i) =>
      var r := row[i := Field(key, v)];
      assert Keys(r) == Keys(row);
      forall k | k != key ensures Get(r, k) == Get(row, k) {
        KeysDetermineIndex(r, row, k);
      }
      r
    case None =>
      var r := row + [Field(key, v)];
      assert Keys(r) == Keys(row) + [key];
      forall k | k != key ensures Get(r, k) == Get(row, k) {
        IndexOfAppend(row, k, Field(key, v));
      }
      IndexOfAppend(row, key, Field(key, v));
      r
  }

  /** A lookup depends only on the keys, in order. */
  lemma {:induction false} KeysDetermineIndex(a: seq<Field>, b: seq<Field>, key: string)
    requires Keys(a) == Keys(b)
    ensures IndexOf(a, key) == IndexOf(b, key)
  {
    if |a| > 0 {
      assert Keys(a[1..]) == Keys(a)[1..] && Keys(b[1..]) == Keys(b)[1..];
      assert a[0].key == Keys(a)[0] && b[0].key == Keys(b)[0];
      KeysDetermineIndex(a[1..], b[1..], key);
    }
  }

  lemma {:induction false} IndexOfAppend(row: seq<Field>, key: string, f: Field)
    ensures IndexOf(row + [f], key) ==
      if key in Keys(row) then IndexOf(row, key)
      else if f.key == key then Some(|row|) else None
  {
    if |row| > 0 {
      assert (row + [f])[1..] == row[1..] + [f];
      IndexOfAppend(row[1..], key, f);
      assert key in Keys(row) <==> row[0].key == key || key in Keys(row[1..]) by {
        assert Keys(row) == [row[0].key] + Keys(row[1..]);
      }
    }
  }

  /** The keys after an assignment: the old ones and the assigned one. */
  lemma SetKeys(row: Row, key: string, v: Value)
    ensures forall k :: k in Keys(Set(row, key, v)) <==> k in Keys(row) || k == key
  {
  }

  /** Assigning a key twice leaves only the second value. */
  lemma SetOverwrite(row: Row, key: string, v: Value, w: Value)
    ensures Set(Set(row, key, v), key, w) == Set(row, key, w)
  {
    var once := Set(row, key, v);
    if key in Keys(row) {
      KeysDetermineIndex(once, row, key);
    } else {
      IndexOfAppend(row, key, Field(key, v));
      assert once[|row| := Field(key, w)] == row + [Field(key, w)];
    }
  }

  /** Assigning a key the value it already holds changes nothing. */
  lemma SetSame(row: Row, key: string)
    requires key in Keys(row)
    ensures Set(row, key, Get(row, key).value) == row
  {
  }

  /** Python truthiness, as `if not value` tests it. */
  predicate Truthy(v: Value) {
    match v
    case VNull => false
    case VBool(b) => b
    case VInt(i) => i != 0
    case VFloat(f) => f != 0.0
    case VDecimal(d) => d != 0.0
    case VStr(s) => s != ""
    case VBytes(bs) => bs != []
    case VList(items) => items != []
    case VObject(members) => members != []
    case VDateTime(_) => true
    case VDate(_) => true
  }
}
