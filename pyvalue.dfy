/** The dynamically typed Python values the encoder accepts (`None`, `bool`,
    `int`, `str`, `bytes`, lists and dictionaries with string keys) and the
    built-in conversions it applies to them: truth value, `int()`, `bytes()`,
    dictionary lookup and slicing. */
module PyValue {
  import opened Wrappers
  import opened Bytes
  import opened Strings

  datatype PyVal =
    | PyNone
    | PyBool(b: bool)
    | PyInt(i: int)
    | PyStr(s: string)
    | PyBytes(bytes: seq<byte>)
    | PyList(items: seq<PyVal>)
    /** A dictionary as its entries in insertion order. */
    | PyDict(entries: seq<Entry>)

  datatype Entry = Entry(key: string, val: PyVal)

  /** `isinstance(v, int)`: a `bool` is an `int` in Python. */
  predicate IsInt(v: PyVal) {
    v.PyInt? || v.PyBool?
  }

  /** The integer an `int` (or `bool`) stands for. */
  function AsInt(v: PyVal): (r: int)
    requires IsInt(v)
    ensures v.PyBool? ==> (r == 1 <==> v.b) && (r == 0 <==> !v.b)
    ensures v.PyInt? ==> r == v.i
  {
    if v.PyInt? then v.i else if v.b then 1 else 0
  }

  /** Python truth value: `None`, `False`, zero and empty containers are false. */
  predicate Truthy(v: PyVal) {
    match v
    case PyNone => false
    case PyBool(b) => b
    case PyInt(i) => i != 0
    case PyStr(s) => s != []
    case PyBytes(b) => b != []
    case PyList(items) => items != []
    case PyDict(entries) => entries != []
  }

  /** `int(v)`; `None` stands for the `ValueError` or `TypeError` it raises. */
  function IntOf(v: PyVal): (r: Option<int>)
    ensures IsInt(v) ==> r == Some(AsInt(v))
    ensures v.PyStr? ==> r == ParseInt(v.s)
    ensures v.PyBytes? ==> r == ParseIntBytes(v.bytes)
    ensures v.PyNone? || v.PyList? || v.PyDict? ==> r.None?
  {
    match v
    case PyBool(_) => Some(AsInt(v))
    case PyInt(i) => Some(i)
    case PyStr(s) => ParseInt(s)
    case PyBytes(b) => ParseIntBytes(b)
    case _ => None
  }

  /** `int()` reads back the decimal text of a number, given as text or as
      its encoded bytes. */
  lemma IntOfDecimal(n: int)
    ensures IntOf(PyStr(Decimal(n))) == Some(n)
    ensures IntOf(PyBytes(Utf8Encode(Decimal(n)))) == Some(n)
  {
    DecimalRoundTrip(n);
    BytesDecimalRoundTrip(n);
  }

  /** Every item of the list is an `int` that fits in a byte. */
  predicate AllByteInts(items: seq<PyVal>) {
    forall k :: 0 <= k < |items| ==> IsInt(items[k]) && 0 <= AsInt(items[k]) < 256
  }

  /** `bytes(v)`; `None` stands for the `TypeError` or `ValueError` it raises. */
  function BytesOf(v: PyVal): (r: Option<seq<byte>>)
    ensures v.PyBytes? ==> r == Some(v.bytes)
    ensures IsInt(v) ==> (r.Some? <==> AsInt(v) >= 0)
    ensures IsInt(v) && AsInt(v) >= 0 ==> r == Some(Zeros(AsInt(v)))
    ensures v.PyList? ==> (r.Some? <==> AllByteInts(v.items))
    ensures v.PyList? && r.Some? ==> |r.value| == |v.items|
                                     && forall k :: 0 <= k < |r.value| ==> r.value[k] == AsInt(v.items[k])
    ensures v.PyStr? || v.PyNone? ==> r.None?
  {
    match v
    case PyBytes(b) => Some(b)
    case PyBool(_) => Some(Zeros(AsInt(v)))
    case PyInt(i) => if i >= 0 then Some(Zeros(i)) else None
    case PyList(items) =>
      if AllByteInts(items) then Some(seq(|items|, k requires 0 <= k < |items| => AsInt(items[k]) as byte))
      else None
    // iterating a dictionary yields its string keys, which are not integers
    case PyDict(entries) => if entries == [] then Some([]) else None
    case _ => None
  }

  /** `key in d`. */
  predicate Has(entries: seq<Entry>, key: string) {
    exists k :: 0 <= k < |entries| && entries[k].key == key
  }

  /** `d[key]`: the value of the entry with that key (the first, should the
      entry list repeat a key). */
  function Get(entries: seq<Entry>, key: string): (r: PyVal)
    requires Has(entries, key)
    ensures exists k :: 0 <= k < |entries| && entries[k] == Entry(key, r)
    ensures r < PyDict(entries)
  {
    if entries[0].key == key then entries[0].val
    else
      assert Has(entries[1..], key) by {
        var k :| 0 <= k < |entries| && entries[k].key == key;
        assert entries[1..][k - 1].key == key;
      }
      var r := Get(entries[1..], key);
      assert r < PyDict(entries) by {
        var k :| 0 <= k < |entries[1..]| && entries[1..][k] == Entry(key, r);
        assert entries[k + 1] in entries;
      }
      r
  }

  /** A dictionary that carries the three keys every TTLV element needs. */
  predicate IsElement(v: PyVal) {
    v.PyDict? && Has(v.entries, "tag") && Has(v.entries, "type") && Has(v.entries, "value")
  }

  /** The dictionary `{'tag': tag, 'type': typ, 'value': value}`. */
  function Element(tag: PyVal, typ: PyVal, value: PyVal): (r: PyVal)
    ensures IsElement(r)
    ensures Get(r.entries, "tag") == tag && Get(r.entries, "type") == typ
    ensures Get(r.entries, "value") == value
  {
    var r := PyDict([Entry("tag", tag), Entry("type", typ), Entry("value", value)]);
    assert r.entries[0].key == "tag" && r.entries[1].key == "type" && r.entries[2].key == "value";
    r
  }

  /** `s[i:j]` with non-negative `i` and `j` measured from the start: clamped
      to the string, and empty when `i` is past `j`. */
  function Slice<T>(s: seq<T>, i: nat, j: int): (r: seq<T>)
    ensures i <= j <= |s| ==> r == s[i..j]
    ensures j <= i || |s| <= i ==> r == []
  {
    var hi := if j < 0 then 0 else if j > |s| then |s| else j;
    if i >= hi then [] else s[i..hi]
  }
}
