/** The connection layer's own reader, which steps over elements by their lengths without
    decoding them, and its agreement with the decoder. */
module MiniBson {
  import opened Bytes
  import opened Values
  import opened Bson
  import opened BsonDecode

  // --- the reader: a pointer is the memory that starts there ---

  function SkipFieldName(s: bytes): (n: nat)
    ensures n > 0
  {
    StrLen(s) + 1
  }

  predicate HasLengthWord(tag: byte) {
    tag in {TAG_STRING, TAG_CODE_D, TAG_SYMBOL, TAG_OBJECT, TAG_ARRAY, TAG_BINARY, TAG_DBPOINTER}
  }

  /** The switch of bson_next: the bytes a value takes, None for types it does not know. The
      process exits on code with scope; a regex is taken for a single C string. */
  function Span(tag: byte, v: bytes): Option<int>
    requires tag != TAG_CODE
    requires HasLengthWord(tag) ==> |v| >= 4
  {
    if tag == TAG_DOUBLE then Some(8)
    else if tag == TAG_STRING || tag == TAG_CODE_D || tag == TAG_SYMBOL then Some(4 + S32(v))
    else if tag == TAG_OBJECT || tag == TAG_ARRAY then Some(S32(v))
    else if tag == TAG_BINARY then Some(4 + 1 + S32(v))
    else if tag == TAG_UNDEF || tag == TAG_NULL || tag == TAG_MINKEY || tag == TAG_MAXKEY then Some(0)
    else if tag == TAG_OID then Some(12)
    else if tag == TAG_BOOL then Some(1)
    else if tag == TAG_DATE || tag == TAG_TIMESTAMP || tag == TAG_LONG then Some(8)
    else if tag == TAG_REGEX then Some(StrLen(v) + 1)
    else if tag == TAG_DBPOINTER then Some(4 + S32(v) + 12)
    else if tag == TAG_INT then Some(4)
    else None
  }

  /** What a caller owes: a type that can be stepped over, and a length word that is in memory. */
  predicate MayStep(s: bytes) {
    && s != []
    && (s[0] != 0 ==>
      && s[0] != TAG_CODE
      && SkipFieldName(s) <= |s|
      && (HasLengthWord(s[0]) ==> SkipFieldName(s) + 4 <= |s|))
  }

  /** bson_next: how far the next element is, or None at the end and for unknown types. */
  function Next(s: bytes): Option<int>
    requires MayStep(s)
  {
    if s[0] == 0 then None
    else
      var at := SkipFieldName(s);
      var span := Span(s[0], s[at..]);
      if span.None? then None else Some(at + span.value)
  }

  /** `int type = data[0]` for a `char` that is signed. */
  function SignedChar(b: byte): int {
    if b < 128 then b else b - 256
  }

  /** The C string at the start of s. */
  function CString(s: bytes): bytes {
    s[..StrLen(s)]
  }

  // --- the decoder's view of the same memory ---

  /** Elements up to the terminator, all of which the decoder accepts. */
  predicate Walkable(s: bytes, cfg: Config)
    ensures Walkable(s, cfg) ==> s != []
    decreases |s|
  {
    s != [] && (s[0] != 0 ==> DecodeElement(s, cfg).Ok? && Walkable(s[DecodeElement(s, cfg).value.size..], cfg))
  }

  datatype Located = Located(pos: nat, e: Element)

  function Walk(s: bytes, pos: nat, cfg: Config): seq<Located>
    requires Walkable(s, cfg)
    decreases |s|
  {
    if s[0] == 0 then []
    else
      var e := DecodeElement(s, cfg).value;
      [Located(pos, e)] + Walk(s[e.size..], pos + e.size, cfg)
  }

  function Collect(acc: Hash, list: seq<Located>): Hash
    decreases |list|
  {
    if list == [] then acc
    else Collect(SymtableUpdate(acc, list[0].e.name, list[0].e.val), list[1..])
  }

  lemma WalkStep(s: bytes, pos: nat, cfg: Config)
    requires Walkable(s, cfg) && s[0] != 0
    ensures DecodeElement(s, cfg).Ok?
    ensures var e := DecodeElement(s, cfg).value; var walk := Walk(s, pos, cfg);
      Walkable(s[e.size..], cfg) && walk != [] && walk[0] == Located(pos, e) &&
      walk[1..] == Walk(s[e.size..], pos + e.size, cfg)
  {
    hide DecodeElement;
  }

  /** The decoder succeeds exactly on walkable memory, and its table is built from that walk. */
  lemma {:induction false} DecodeIsWalk(s: bytes, pos: nat, acc: Hash, cfg: Config)
    requires s != []
    ensures DecodeElems(s, acc, cfg).Ok? <==> Walkable(s, cfg)
    ensures Walkable(s, cfg) ==> DecodeElems(s, acc, cfg).value.0 == Collect(acc, Walk(s, pos, cfg))
    decreases |s|
  {
    hide DecodeElement;
    if s[0] != 0 && DecodeElement(s, cfg).Ok? {
      var e := DecodeElement(s, cfg).value;
      DecodeIsWalk(s[e.size..], pos + e.size, SymtableUpdate(acc, e.name, e.val), cfg);
      if Walkable(s, cfg) {
        WalkStep(s, pos, cfg);
      }
    }
  }

  predicate Steppable(list: seq<Located>) {
    forall i :: 0 <= i < |list| ==> list[i].e.tag != TAG_REGEX && list[i].e.tag != TAG_CODE
  }

  predicate Matches(l: Located, name: bytes, typ: int) {
    l.e.name == name && SignedChar(l.e.tag) == typ
  }

  predicate IsFirst(list: seq<Located>, i: int, name: bytes, typ: int) {
    0 <= i < |list| && Matches(list[i], name, typ) && forall j :: 0 <= j < i ==> !Matches(list[j], name, typ)
  }

  function FirstMatch(list: seq<Located>, name: bytes, typ: int): (r: Option<nat>)
    ensures r.None? ==> forall i :: 0 <= i < |list| ==> !Matches(list[i], name, typ)
    ensures r.Some? ==> exists i :: IsFirst(list, i, name, typ) && r.value == list[i].pos + list[i].e.at
  {
    if list == [] then None
    else if Matches(list[0], name, typ) then Some(list[0].pos + list[0].e.at)
    else
      var r := FirstMatch(list[1..], name, typ);
      assert forall i :: 0 <= i < |list| - 1 ==> list[1..][i] == list[i + 1];
      assert forall i :: IsFirst(list[1..], i, name, typ) ==> IsFirst(list, i + 1, name, typ);
      r
  }

  lemma SpanAgrees(tag: byte, v: bytes, cfg: Config)
    requires v != [] && DecodeValue(tag, v, cfg).Ok? && tag != TAG_REGEX && tag != TAG_CODE
    ensures HasLengthWord(tag) ==> |v| >= 4
    ensures Span(tag, v) == Some(DecodeValue(tag, v, cfg).value.1)
  {
    hide S32, S64, U64, DecodeDoc;
  }

  /** Stepping by length lands where decoding ends. */
  lemma NextAgrees(s: bytes, cfg: Config)
    requires s != [] && s[0] != 0 && DecodeElement(s, cfg).Ok?
    requires s[0] != TAG_REGEX && s[0] != TAG_CODE
    ensures MayStep(s) && Next(s) == Some(DecodeElement(s, cfg).value.size)
    ensures SkipFieldName(s) == DecodeElement(s, cfg).value.at
    ensures CString(s[1..]) == DecodeElement(s, cfg).value.name
  {
    hide DecodeValue, Span;
    var n := StrLen(s[1..]);
    StrLenUnique(s, n + 1);
    SpanAgrees(s[0], s[n + 2..], cfg);
  }

  /** bson_find_field over the elements at data. */
  method FindField(data: bytes, fieldName: bytes, typ: int, ghost cfg: Config) returns (found: Option<nat>)
    requires Walkable(data, cfg) && Steppable(Walk(data, 0, cfg))
    ensures found == FirstMatch(Walk(data, 0, cfg), fieldName, typ)
  {
    hide DecodeElement, Next, MayStep, Walk, Walkable, Steppable, CString, SkipFieldName, FirstMatch;
    var ptr := 0;
    while data[ptr] != 0 && (CString(data[ptr + 1..]) != fieldName || SignedChar(data[ptr]) != typ)
      invariant 0 <= ptr < |data| && Walkable(data[ptr..], cfg) && Steppable(Walk(data[ptr..], ptr, cfg))
      invariant FirstMatch(Walk(data, 0, cfg), fieldName, typ) ==
                  FirstMatch(Walk(data[ptr..], ptr, cfg), fieldName, typ)
      decreases |data| - ptr
    {
      StepAgrees(data[ptr..], ptr, cfg);
      DropDrop(data, ptr, 1);
      DropDrop(data, ptr, Next(data[ptr..]).value);
      FirstMatchStep(Walk(data[ptr..], ptr, cfg), fieldName, typ);
      var step := Next(data[ptr..]);
      if step.None? {
        return None;
      }
      ptr := ptr + step.value;
    }
    if data[ptr] == 0 {
      WalkEnd(data[ptr..], ptr, fieldName, typ, cfg);
      return None;
    }
    StepAgrees(data[ptr..], ptr, cfg);
    DropDrop(data, ptr, 1);
    FirstMatchStep(Walk(data[ptr..], ptr, cfg), fieldName, typ);
    return Some(ptr + SkipFieldName(data[ptr..]));
  }

  lemma WalkEnd(s: bytes, pos: nat, name: bytes, typ: int, cfg: Config)
    requires Walkable(s, cfg) && s[0] == 0
    ensures Walk(s, pos, cfg) == [] && FirstMatch(Walk(s, pos, cfg), name, typ) == None
  {
  }

  lemma FirstMatchStep(list: seq<Located>, name: bytes, typ: int)
    requires list != []
    ensures FirstMatch(list, name, typ) ==
      if Matches(list[0], name, typ) then Some(list[0].pos + list[0].e.at) else FirstMatch(list[1..], name, typ)
  {
  }

  lemma DropDrop(s: bytes, m: nat, n: nat)
    requires m + n <= |s|
    ensures s[m..][n..] == s[m + n..]
  {
  }

  lemma SteppableTail(list: seq<Located>)
    requires Steppable(list) && list != []
    ensures Steppable(list[1..]) && list[0].e.tag != TAG_REGEX && list[0].e.tag != TAG_CODE
  {
  }

  /** At an element of a document, the reader sees what the decoder's walk holds there. */
  lemma StepAgrees(s: bytes, pos: nat, cfg: Config)
    requires Walkable(s, cfg) && s[0] != 0 && Steppable(Walk(s, pos, cfg))
    ensures MayStep(s) && Next(s).Some? && 0 < Next(s).value < |s|
    ensures var n := Next(s).value; var walk := Walk(s, pos, cfg);
      && Walkable(s[n..], cfg) && walk != []
      && walk[1..] == Walk(s[n..], pos + n, cfg) && Steppable(walk[1..])
      && walk[0].pos == pos && walk[0].e.tag == s[0] && walk[0].e.name == CString(s[1..])
      && walk[0].e.at == SkipFieldName(s)
  {
    hide DecodeElement, Next, MayStep, Walk, Walkable, CString, SkipFieldName;
    WalkStep(s, pos, cfg);
    NextAgrees(s, cfg);
    SteppableTail(Walk(s, pos, cfg));
  }

  /** Every entry of the walk is the element that the decoder reads at that position. */
  lemma {:induction false} WalkLocates(data: bytes, ptr: nat, i: nat, cfg: Config)
    requires ptr < |data| && Walkable(data[ptr..], cfg) && i < |Walk(data[ptr..], ptr, cfg)|
    ensures var l := Walk(data[ptr..], ptr, cfg)[i];
      l.pos < |data| && data[l.pos] != 0 && DecodeElement(data[l.pos..], cfg) == Ok(l.e)
    decreases |data| - ptr
  {
    hide DecodeElement, Walkable;
    var s := data[ptr..];
    if s[0] == 0 {
      WalkEnd(s, ptr, [], 0, cfg);
    } else {
      WalkStep(s, ptr, cfg);
      var walk := Walk(s, ptr, cfg);
      if i > 0 {
        DropDrop(data, ptr, walk[0].e.size);
        WalkLocates(data, ptr + walk[0].e.size, i - 1, cfg);
        assert walk[i] == walk[1..][i - 1];
      }
    }
  }

  /** Read as a C string, a BSON string is what the decoder makes of it, cut at its first NUL. */
  lemma StringAt(v: bytes, lenError: int)
    requires DecodeString(v, lenError).Ok?
    ensures CString(v[4..]) == CString(DecodeString(v, lenError).value.0)
  {
    var str := DecodeString(v, lenError).value.0;
    var m := v[4..];
    assert m[..|str|] == str && m[|str|] == 0;
    StrLenUnique(m, StrLen(str));
  }

  lemma ElementText(data: bytes, ptr: nat, cfg: Config)
    requires ptr < |data| && data[ptr] == TAG_STRING && DecodeElement(data[ptr..], cfg).Ok?
    ensures var e := DecodeElement(data[ptr..], cfg).value;
      e.val.Str? && ptr + e.at + 4 <= |data| && CString(data[ptr + e.at + 4..]) == CString(e.val.s)
  {
    hide DecodeString, StrLen, CString;
    var e := DecodeElement(data[ptr..], cfg).value;
    var v := data[ptr..][e.at..];
    DropDrop(data, ptr, e.at);
    DropDrop(data, ptr + e.at, 4);
    assert DecodeString(v, 21).Ok? && e.val == Str(DecodeString(v, 21).value.0);
    StringAt(v, 21);
  }

  /** bson_find_field_as_string: the text of the first string element of that name. */
  method FindFieldAsString(data: bytes, field: bytes, ghost cfg: Config) returns (text: Option<bytes>)
    requires Walkable(data, cfg) && Steppable(Walk(data, 0, cfg))
    ensures text.None? ==> forall i :: 0 <= i < |Walk(data, 0, cfg)| ==>
      !Matches(Walk(data, 0, cfg)[i], field, TAG_STRING)
    ensures text.Some? ==> exists i :: IsFirst(Walk(data, 0, cfg), i, field, TAG_STRING)
                                     && Walk(data, 0, cfg)[i].e.val.Str?
                                     && text.value == CString(Walk(data, 0, cfg)[i].e.val.s)
  {
    hide DecodeElement, DecodeString, Walk, Walkable, Steppable, FirstMatch, CString;
    var at := FindField(data, field, TAG_STRING, cfg);
    ghost var walk := Walk(data, 0, cfg);
    if at.None? {
      return None;
    }
    ghost var i :| IsFirst(walk, i, field, TAG_STRING) && at.value == walk[i].pos + walk[i].e.at;
    assert data[0..] == data;
    WalkLocates(data, 0, i, cfg);
    ElementText(data, walk[i].pos, cfg);
    text := Some(CString(data[at.value + 4..]));
    assert IsFirst(walk, i, field, TAG_STRING);
  }

  /** A type above 127 is never found: the type byte is compared as a signed char. */
  lemma HighTypesAreNeverFound(list: seq<Located>, name: bytes, typ: int)
    requires typ >= 128
    ensures FirstMatch(list, name, typ) == None
  {
  }

  // --- arrays of strings ---

  predicate AllStrings(list: seq<Located>) {
    forall i :: 0 <= i < |list| ==> list[i].e.tag == TAG_STRING && list[i].e.val.Str?
  }

  function Texts(list: seq<Located>): seq<bytes>
    requires AllStrings(list)
  {
    seq(|list|, i requires 0 <= i < |list| => CString(list[i].e.val.s))
  }

  /** bson_array_find_next_string: moves *buffer on, and leaves *data alone unless it was at a string. */
  method ArrayFindNextString(data: bytes, ptr: nat, text: bytes, ghost cfg: Config)
    returns (more: bool, next: nat, text': bytes)
    requires ptr < |data| && Walkable(data[ptr..], cfg) && Steppable(Walk(data[ptr..], ptr, cfg))
    ensures more <==> data[ptr] != 0
    ensures more ==> ptr < next < |data| && Walkable(data[next..], cfg)
    ensures more ==> Walk(data[ptr..], ptr, cfg) == [Walk(data[ptr..], ptr, cfg)[0]] + Walk(data[next..], next, cfg)
    ensures more && data[ptr] == TAG_STRING ==>
              var e := Walk(data[ptr..], ptr, cfg)[0].e; e.val.Str? && text' == CString(e.val.s)
    ensures !more || data[ptr] != TAG_STRING ==> text' == text
  {
    hide DecodeElement, Walkable, Steppable, CString, Span;
    text' := text;
    if data[ptr] == 0 {
      return false, ptr, text;
    }
    StepAgrees(data[ptr..], ptr, cfg);
    WalkLocates(data, ptr, 0, cfg);
    if data[ptr] == TAG_STRING {
      ElementText(data, ptr, cfg);
      text' := CString(data[ptr + SkipFieldName(data[ptr..]) + 4..]);
    }
    DropDrop(data, ptr, Next(data[ptr..]).value);
    var step := Next(data[ptr..]);
    more := step.Some?;
    next := ptr + step.value;
  }

  /** The loop that gathers host names: over an array of strings it yields them all, in order. */
  method CollectStrings(data: bytes, ghost cfg: Config) returns (found: seq<bytes>)
    requires Walkable(data, cfg) && AllStrings(Walk(data, 0, cfg))
    ensures found == Texts(Walk(data, 0, cfg))
    ensures |found| == |Walk(data, 0, cfg)|
    ensures forall i :: 0 <= i < |found| ==> found[i] == CString(Walk(data, 0, cfg)[i].e.val.s)
  {
    hide DecodeElement, Walkable, CString;
    found := [];
    var ptr := 0;
    var text: bytes := [];
    ghost var all := Walk(data, 0, cfg);
    assert data[0..] == data;
    while true
      invariant 0 <= ptr < |data| && Walkable(data[ptr..], cfg)
      invariant |found| <= |all| && Walk(data[ptr..], ptr, cfg) == all[|found|..]
      invariant found == Texts(all)[..|found|]
      decreases |data| - ptr
    {
      ghost var walk := Walk(data[ptr..], ptr, cfg);
      var more: bool;
      var next: nat;
      more, next, text := ArrayFindNextString(data, ptr, text, cfg);
      if !more {
        WalkEnd(data[ptr..], ptr, [], 0, cfg);
        return;
      }
      assert walk[0] == all[|found|];
      assert walk[0].e.tag == data[ptr] by { WalkLocates(data, ptr, 0, cfg); }
      found := found + [text];
      ptr := next;
    }
  }
}
