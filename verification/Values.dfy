/** PHP values as the codec sees them, and the hash tables that hold them. */
module Values {
  import opened Bytes

  type int32 = n: int | INT_MIN <= n <= INT_MAX
  type int64 = n: int | LONG_MIN <= n <= LONG_MAX
  type uint64 = n: int | 0 <= n < WORD64
  type cstring = s: bytes | NulFree(s) witness []
  type oid = id: bytes | |id| == 12 witness seq(12, _ => 0)

  /** A native long used as a key; printing LONG_MIN would overflow in C. */
  type index = n: int | LONG_MIN < n <= LONG_MAX

  /** A hash table key: a native long or a byte string. */
  datatype Key = IntKey(h: index) | StrKey(s: bytes)

  datatype Zval =
    | Null
    | Long(n: int64)
    | Double(bits: uint64)
    | Bool(b: bool)
    | Str(s: bytes)
    | Arr(elems: Hash)
    | Object(props: Hash)
    | Oid(id: oid)
    | Date(ms: int64)
    | Regex(pattern: bytes, flags: bytes)
    | Code(code: bytes, scope: Hash)
    | Bin(subtype: byte, data: bytes)
    | Timestamp(sec: int64, inc: int64)
    | MinKey
    | MaxKey
    | Int32(v: int64)
    | Int64(v: int64)

  /** A Zend hash table: its (key, value) pairs in order. */
  datatype Hash = Nil | Entry(key: Key, val: Zval, rest: Hash)

  function Count(h: Hash): nat {
    match h
    case Nil => 0
    case Entry(_, _, rest) => 1 + Count(rest)
  }

  predicate HasKey(h: Hash, k: Key) {
    h.Entry? && (h.key == k || HasKey(h.rest, k))
  }

  function Find(h: Hash, k: Key): Option<Zval> {
    match h
    case Nil => None
    case Entry(key, val, rest) => if key == k then Some(val) else Find(rest, k)
  }

  function Append(a: Hash, b: Hash): Hash {
    match a
    case Nil => b
    case Entry(k, v, rest) => Entry(k, v, Append(rest, b))
  }

  /** zend_hash_update: replace the value in place, or add a new last pair. */
  function Update(h: Hash, k: Key, v: Zval): Hash {
    match h
    case Nil => Entry(k, v, Nil)
    case Entry(key, val, rest) => if key == k then Entry(k, v, rest) else Entry(key, val, Update(rest, k, v))
  }

  lemma UpdateFresh(h: Hash, k: Key, v: Zval)
    requires !HasKey(h, k)
    ensures Update(h, k, v) == Append(h, Entry(k, v, Nil))
  {
  }

  lemma AppendAssoc(a: Hash, b: Hash, c: Hash)
    ensures Append(Append(a, b), c) == Append(a, Append(b, c))
  {
  }

  lemma AppendNil(a: Hash)
    ensures Append(a, Nil) == a
  {
  }

  lemma HasKeyAppend(a: Hash, b: Hash, k: Key)
    ensures HasKey(Append(a, b), k) <==> HasKey(a, k) || HasKey(b, k)
  {
  }

  /** The name under which a key is written. */
  function KeyName(k: Key): (name: bytes)
  {
    match k
    case IntKey(h) => Dec(h)
    case StrKey(s) => s
  }

  predicate IsDecimal(s: bytes) {
    var d := if s != [] && s[0] == 45 then s[1..] else s;
    d != [] && AllDigits(d) && (d[0] != 48 || s == [48])
  }

  function DecimalValue(s: bytes): int
    requires IsDecimal(s)
  {
    if s[0] == 45 then -(DigitsValue(s[1..]) as int) else DigitsValue(s)
  }

  /** The key that the symbol-table functions use for a name: decimal integers become longs. */
  function SymKey(name: bytes): Key {
    if IsDecimal(name) && LONG_MIN < DecimalValue(name) <= LONG_MAX then IntKey(DecimalValue(name))
    else StrKey(name)
  }

  function SymtableUpdate(h: Hash, name: bytes, v: Zval): Hash {
    Update(h, SymKey(name), v)
  }

  lemma DecDenotes(n: int)
    ensures IsDecimal(Dec(n)) && DecimalValue(Dec(n)) == n
  {
    var m: nat := if n < 0 then -n else n;
    var d := Digits(m);
    DigitsValueOfDigits(m);
    assert IsDigit(d[0]);
    if n < 0 {
      assert Dec(n) == [45] + d;
      assert Dec(n)[1..] == d;
    } else {
      assert Dec(n) == d;
      assert d[0] == 48 ==> d == [48];
    }
  }

  /** A decimal key survives being printed and read back. */
  lemma SymKeyOfDec(n: index)
    ensures SymKey(Dec(n)) == IntKey(n)
  {
    DecDenotes(n);
  }

  /** php_mongo_is_numeric_array counts on: the keys are 0, 1, 2, ... in order. */
  predicate NumericFrom(h: Hash, n: nat) {
    h.Entry? ==> h.key.IntKey? && h.key.h == n && NumericFrom(h.rest, n + 1)
  }

  /** contrib/php-json.c: SUCCESS (true) or FAILURE (false). */
  method IsNumericArray(h: Hash) returns (success: bool)
    ensures success <==> NumericFrom(h, 0)
  {
    var pos := h;
    var idx := 0;
    while pos.Entry?
      invariant 0 <= idx
      invariant NumericFrom(h, 0) <==> NumericFrom(pos, idx)
      decreases pos
    {
      if pos.key.StrKey? {
        return false;
      }
      if pos.key.h != idx {
        return false;
      }
      idx := idx + 1;
      pos := pos.rest;
    }
    return true;
  }
}
