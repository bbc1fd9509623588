/** The BSON wire format of a tree as the encoder lays it out, and when the encoder refuses. */
module Bson {
  import opened Bytes
  import opened Values

  const TAG_DOUBLE: byte := 0x01
  const TAG_STRING: byte := 0x02
  const TAG_OBJECT: byte := 0x03
  const TAG_ARRAY: byte := 0x04
  const TAG_BINARY: byte := 0x05
  const TAG_UNDEF: byte := 0x06
  const TAG_OID: byte := 0x07
  const TAG_BOOL: byte := 0x08
  const TAG_DATE: byte := 0x09
  const TAG_NULL: byte := 0x0A
  const TAG_REGEX: byte := 0x0B
  const TAG_DBPOINTER: byte := 0x0C
  const TAG_CODE_D: byte := 0x0D
  const TAG_SYMBOL: byte := 0x0E
  const TAG_CODE: byte := 0x0F
  const TAG_INT: byte := 0x10
  const TAG_TIMESTAMP: byte := 0x11
  const TAG_LONG: byte := 0x12
  const TAG_MAXKEY: byte := 0x7F
  const TAG_MINKEY: byte := 0xFF

  const OID_SIZE := 12
  const BIN_BYTE_ARRAY: byte := 2
  const BIN_UUID_RFC4122: byte := 4
  const UUID_SIZE := 16
  const DEFAULT_MAX_DOCUMENT_SIZE := 16 * 1024 * 1024
  const DEFAULT_MAX_MESSAGE_SIZE := 32 * 1024 * 1024

  /** The ini settings that the codec reads; `mongo.native_long` is on. */
  datatype Config = Config(allowEmptyKeys: bool, cmdChar: Option<byte>, longAsObject: bool)

  // --- what the encoder writes ---

  /** Keys that start with the command character are written with '$' instead. */
  function WireName(name: bytes, cfg: Config): (w: bytes)
    ensures |w| == |name|
  {
    if cfg.cmdChar.Some? && name != [] && name[0] == cfg.cmdChar.value then [36] + name[1..] else name
  }

  /** How many keys continue the count 0, 1, 2, ... begun at num. */
  function CountAscending(h: Hash, num: nat): nat {
    match h
    case Nil => num
    case Entry(k, _, rest) => CountAscending(rest, if k.IntKey? && k.h == num then num + 1 else num)
  }

  function Tag(v: Zval): byte {
    match v
    case Null => TAG_NULL
    case Long(_) => TAG_LONG
    case Double(_) => TAG_DOUBLE
    case Bool(_) => TAG_BOOL
    case Str(_) => TAG_STRING
    case Arr(h) => if CountAscending(h, 0) == Count(h) then TAG_ARRAY else TAG_OBJECT
    case Object(_) => TAG_OBJECT
    case Oid(_) => TAG_OID
    case Date(_) => TAG_DATE
    case Regex(_, _) => TAG_REGEX
    case Code(_, _) => TAG_CODE
    case Bin(_, _) => TAG_BINARY
    case Timestamp(_, _) => TAG_TIMESTAMP
    case MinKey => TAG_MINKEY
    case MaxKey => TAG_MAXKEY
    case Int32(_) => TAG_INT
    case Int64(_) => TAG_LONG
  }

  function StringBytes(s: bytes): bytes {
    Le32(|s| + 1) + s + [0]
  }

  function CodeBytes(code: bytes, scope: bytes): bytes {
    Le32(4 + |StringBytes(code)| + |scope|) + StringBytes(code) + scope
  }

  function BinBytes(subtype: byte, data: bytes): bytes {
    if subtype == BIN_BYTE_ARRAY then
      Le32(|data| + 4) + [subtype] + Le32(|data|) + data
    else
      Le32(|data|) + [subtype] + data
  }

  function ValueBytes(v: Zval, cfg: Config): bytes
    decreases v, 0
  {
    match v
    case Null => []
    case Long(n) => Le64(n)
    case Double(bits) => Le64(bits)
    case Bool(b) => [if b then 1 else 0]
    case Str(s) => StringBytes(s)
    case Arr(h) => DocBytes(h, cfg)
    case Object(h) => DocBytes(h, cfg)
    case Oid(id) => id
    case Date(ms) => Le64(ms)
    case Regex(p, f) => p + [0] + f + [0]
    case Code(c, scope) => CodeBytes(c, DocBytes(scope, cfg))
    case Bin(t, d) => BinBytes(t, d)
    case Timestamp(sec, inc) => Le32(inc) + Le32(sec)
    case MinKey => []
    case MaxKey => []
    case Int32(n) => Le32(n)
    case Int64(n) => Le64(n)
  }

  function ElemBytes(name: bytes, v: Zval, cfg: Config): bytes
    decreases v, 1
  {
    [Tag(v)] + WireName(name, cfg) + [0] + ValueBytes(v, cfg)
  }

  function ElemsBytes(h: Hash, cfg: Config): bytes
    decreases h, 0
  {
    match h
    case Nil => []
    case Entry(k, v, rest) => ElemBytes(KeyName(k), v, cfg) + ElemsBytes(rest, cfg)
  }

  function DocBytes(h: Hash, cfg: Config): bytes
    decreases h, 1
  {
    var b := ElemsBytes(h, cfg);
    Le32(|b| + 5) + b + [0]
  }

  // --- when the encoder refuses: the code of the first exception thrown ---

  function NameError(name: bytes, prep: bool, cfg: Config): Option<int> {
    if (name == [] || name[0] == 0) && !cfg.allowEmptyKeys then Some(1)
    else if !NulFree(name) then Some(2)
    else if prep && 46 in name then Some(2)
    else None
  }

  predicate Continuation(b: byte) {
    128 <= b < 192
  }

  /** Length of the well-formed sequence at the start of s, 0 if there is none. */
  function Utf8Step(s: bytes): (n: nat)
    requires s != []
    ensures n <= |s| && n <= 4
  {
    if |s| > 3 && 240 <= s[0] < 248 && Continuation(s[1]) && Continuation(s[2]) && Continuation(s[3]) then 4
    else if |s| > 2 && 224 <= s[0] < 240 && Continuation(s[1]) && Continuation(s[2]) then 3
    else if |s| > 1 && 192 <= s[0] < 224 && Continuation(s[1]) then 2
    else if s[0] < 128 then 1
    else 0
  }

  /** s is a run of sequences with one to four bytes, each lead byte followed by its continuations. */
  predicate IsUtf8(s: bytes) {
    s == [] || (Utf8Step(s) > 0 && IsUtf8(s[Utf8Step(s)..]))
  }

  function ValueError(v: Zval, cfg: Config): Option<int>
    decreases v, 0
  {
    match v
    case Str(s) => if IsUtf8(s) then None else Some(12)
    case Arr(h) => DocError(h, DEFAULT_MAX_DOCUMENT_SIZE, cfg)
    case Object(h) => DocError(h, DEFAULT_MAX_MESSAGE_SIZE, cfg)
    case Code(c, scope) =>
      var e := DocError(scope, DEFAULT_MAX_MESSAGE_SIZE, cfg);
      if e.Some? then e
      else if |CodeBytes(c, DocBytes(scope, cfg))| > DEFAULT_MAX_MESSAGE_SIZE then Some(3)
      else None
    case Bin(t, d) => if t == BIN_UUID_RFC4122 && |d| != UUID_SIZE then Some(25) else None
    case _ => None
  }

  function ElemError(name: bytes, v: Zval, prep: bool, cfg: Config): Option<int>
    decreases v, 1
  {
    if NameError(name, prep, cfg).Some? then NameError(name, prep, cfg) else ValueError(v, cfg)
  }

  function ElemsError(h: Hash, prep: bool, cfg: Config): Option<int>
    decreases h, 0
  {
    match h
    case Nil => None
    case Entry(k, v, rest) =>
      var e := ElemError(KeyName(k), v, prep, cfg);
      if e.Some? then e else ElemsError(rest, prep, cfg)
  }

  /** zval_to_bson without `prep`. */
  function DocError(h: Hash, max: int, cfg: Config): Option<int>
    decreases h, 1
  {
    if ElemsError(h, false, cfg).Some? then ElemsError(h, false, cfg)
    else if |DocBytes(h, cfg)| > max then Some(3)
    else None
  }
}
