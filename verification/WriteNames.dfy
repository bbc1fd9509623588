/** The names in the tables a write command is made of, and when decoding gives them back. */
module WriteNames {
  import opened Bytes
  import opened Values
  import opened Bson
  import opened BsonRoundTrip
  import opened WriteCommand

  // --- names that come back ---

  /** The name starts with the command character, so that it is written with '$' in its place. */
  predicate Rewritten(name: bytes, cfg: Config) {
    WireName(name, cfg) != name
  }

  predicate NamesKept(h: Hash, cfg: Config) {
    h.Entry? ==> !Rewritten(KeyName(h.key), cfg) && NamesKept(h.rest, cfg)
  }

  /** Different keys, each of which is what its name reads back as. */
  predicate OwnNames(h: Hash) {
    h.Entry? ==> SymKey(KeyName(h.key)) == h.key && !HasKey(h.rest, h.key) && OwnNames(h.rest)
  }

  /** The table with each value as it is decoded. */
  function Unrenamed(h: Hash, cfg: Config): Hash {
    match h
    case Nil => Nil
    case Entry(k, v, rest) => Entry(k, Norm(v, cfg), Unrenamed(rest, cfg))
  }

  lemma {:induction false} NormIntoAppend(acc: Hash, a: Hash, b: Hash, cfg: Config)
    ensures NormInto(acc, Append(a, b), cfg) == NormInto(NormInto(acc, a, cfg), b, cfg)
    decreases a
  {
    match a
    case Nil =>
    case Entry(k, v, rest) => NormIntoAppend(SymtableUpdate(acc, NormName(k, cfg), Norm(v, cfg)), rest, b, cfg);
  }

  lemma {:induction false} KeptComesBack(acc: Hash, h: Hash, cfg: Config)
    requires OwnNames(h) && NamesKept(h, cfg)
    requires forall k :: HasKey(h, k) ==> !HasKey(acc, k)
    ensures NormInto(acc, h, cfg) == Append(acc, Unrenamed(h, cfg))
    decreases h
  {
    hide Norm;
    match h
    case Nil => AppendNil(acc);
    case Entry(k, v, rest) =>
      var one := Entry(k, Norm(v, cfg), Nil);
      UpdateFresh(acc, k, Norm(v, cfg));
      forall j | HasKey(rest, j)
        ensures !HasKey(Append(acc, one), j)
      {
        assert HasKey(h, j);
        HasKeyAppend(acc, one, j);
      }
      KeptComesBack(Append(acc, one), rest, cfg);
      AppendAssoc(acc, one, Unrenamed(rest, cfg));
  }

  lemma {:induction false} DigitsOfValue(d: bytes)
    requires d != [] && AllDigits(d) && (d[0] != 48 || d == [48])
    ensures Digits(DigitsValue(d)) == d && (d[0] != 48 ==> DigitsValue(d) > 0)
  {
    var front := d[..|d| - 1];
    if front != [] {
      DigitsOfValue(front);
      assert DigitsValue(d) / 10 == DigitsValue(front);
    } else {
      assert DigitsValue(front) == 0 && d == [d[0]];
    }
  }

  /** Different names are different keys. */
  lemma NameOfSymKey(name: bytes)
    ensures KeyName(SymKey(name)) == name
  {
    hide Digits, DigitsValue;
    if IsDecimal(name) {
      if name[0] == 45 {
        DigitsOfValue(name[1..]);
        assert name == [45] + name[1..];
      } else {
        DigitsOfValue(name);
      }
    }
  }

  /** No name that is read back starts with the command character. */
  lemma {:induction false} NoneRewritten(acc: Hash, h: Hash, cfg: Config, k: Key)
    requires HasKey(NormInto(acc, h, cfg), k)
    ensures HasKey(acc, k) || !Rewritten(KeyName(k), cfg)
    decreases h
  {
    hide Norm, SymKey;
    if h.Entry? {
      var name := NormName(h.key, cfg);
      NoneRewritten(Update(acc, SymKey(name), Norm(h.val, cfg)), h.rest, cfg, k);
      HasKeyUpdate(acc, SymKey(name), Norm(h.val, cfg), k);
      NameOfSymKey(name);
    }
  }

  lemma HasKeyUpdate(h: Hash, k: Key, v: Zval, j: Key)
    ensures HasKey(Update(h, k, v), j) <==> HasKey(h, j) || j == k
  {
  }

  lemma {:induction false} KeptIfRead(h: Hash, all: Hash, cfg: Config)
    requires forall k :: HasKey(h, k) ==> HasKey(NormHash(all, cfg), k)
    ensures NamesKept(h, cfg)
  {
    if h.Entry? {
      assert HasKey(h, h.key);
      NoneRewritten(Nil, all, cfg, h.key);
      KeptIfRead(h.rest, all, cfg);
    }
  }

  lemma {:induction false} SameNames(h: Hash, cfg: Config, k: Key)
    ensures HasKey(Unrenamed(h, cfg), k) <==> HasKey(h, k)
  {
    if h.Entry? {
      SameNames(h.rest, cfg, k);
    }
  }

  /** A table of own names comes back under them exactly when none of them starts with the command character. */
  lemma ComesBackExactly(h: Hash, cfg: Config)
    requires OwnNames(h)
    ensures NormHash(h, cfg) == Unrenamed(h, cfg) <==> NamesKept(h, cfg)
  {
    if NamesKept(h, cfg) {
      KeptComesBack(Nil, h, cfg);
    }
    if NormHash(h, cfg) == Unrenamed(h, cfg) {
      forall k
        ensures HasKey(h, k) ==> HasKey(NormHash(h, cfg), k)
      {
        SameNames(h, cfg, k);
      }
      KeptIfRead(h, h, cfg);
    }
  }

  // --- the tables a command is made of have such names ---

  /** The keys are names from this list. */
  predicate Among(h: Hash, names: seq<string>) {
    h.Entry? ==> (exists i :: 0 <= i < |names| && h.key == StrKey(Ascii(names[i]))) && Among(h.rest, names)
  }

  predicate IsWord(name: string) {
    name != "" && 'a' <= name[0] <= 'z' && forall i :: 0 <= i < |name| ==> name[i] as int < 128
  }

  lemma WordsDiffer(s: string, t: string)
    requires IsWord(s) && IsWord(t) && s != t
    ensures Ascii(s) != Ascii(t)
  {
    if |s| == |t| {
      var i :| 0 <= i < |s| && s[i] != t[i];
      assert Ascii(s)[i] != Ascii(t)[i];
    }
  }

  lemma {:induction false} NotAmong(h: Hash, names: seq<string>, name: string)
    requires Among(h, names) && IsWord(name) && name !in names && forall n :: n in names ==> IsWord(n)
    ensures !HasKey(h, StrKey(Ascii(name)))
  {
    if h.Entry? {
      var i :| 0 <= i < |names| && h.key == StrKey(Ascii(names[i]));
      WordsDiffer(name, names[i]);
      NotAmong(h.rest, names, name);
    }
  }

  lemma {:induction false} AmongMore(h: Hash, names: seq<string>, name: string)
    requires Among(h, names)
    ensures Among(h, names + [name])
  {
    if h.Entry? {
      var i :| 0 <= i < |names| && h.key == StrKey(Ascii(names[i]));
      assert (names + [name])[i] == names[i];
      AmongMore(h.rest, names, name);
    }
  }

  lemma {:induction false} OwnAppend(a: Hash, b: Hash)
    requires OwnNames(a) && OwnNames(b) && forall k :: HasKey(b, k) ==> !HasKey(a, k)
    ensures OwnNames(Append(a, b))
  {
    if a.Entry? {
      OwnAppend(a.rest, b);
      HasKeyAppend(a.rest, b, a.key);
    }
  }

  lemma {:induction false} AmongAppend(a: Hash, b: Hash, names: seq<string>)
    requires Among(a, names) && Among(b, names)
    ensures Among(Append(a, b), names)
  {
    if a.Entry? {
      AmongAppend(a.rest, b, names);
    }
  }

  /** One more field, or none, behind a table of other names. */
  lemma OneMoreName(h: Hash, names: seq<string>, name: string, part: Hash)
    requires OwnNames(h) && Among(h, names) && IsWord(name) && name !in names && forall n :: n in names ==> IsWord(n)
    requires part == Nil || part == Field(name, part.val)
    ensures OwnNames(Append(h, part)) && Among(Append(h, part), names + [name])
  {
    AmongMore(h, names, name);
    if part == Nil {
      AppendNil(h);
    } else {
      NotAmong(h, names, name);
      assert Ascii(name)[0] >= 97;
      assert (names + [name])[|names|] == name;
      OwnAppend(h, part);
      AmongAppend(h, part, names + [name]);
    }
  }

  lemma NothingOwn()
    ensures OwnNames(Nil) && Among(Nil, [])
  {
  }

  /** A first field. */
  lemma FirstName(name: string, part: Hash)
    requires IsWord(name) && (part == Nil || part == Field(name, part.val))
    ensures OwnNames(part) && Among(part, [name])
  {
    NothingOwn();
    OneMoreName(Nil, [], name, part);
    assert [] + [name] == [name];
  }

  lemma ItemNamesAreOwn(item: WriteItem)
    requires !item.InsertItem?
    ensures OwnNames(ItemTable(item))
  {
    hide OwnNames, Among, Append, Field;
    match item
    case UpdateItem(q, u, multi, upsert) =>
      var t := Append(Field("q", Object(q)), Field("u", Object(u)));
      IsField("q", Object(q));
      IsField("u", Object(u));
      IsOptionalBool("multi", multi);
      IsOptionalBool("upsert", upsert);
      FirstName("q", Field("q", Object(q)));
      OneMoreName(Field("q", Object(q)), ["q"], "u", Field("u", Object(u)));
      OneMoreName(t, ["q"] + ["u"], "multi", OptionalBool("multi", multi));
      OneMoreName(Append(t, OptionalBool("multi", multi)), ["q"] + ["u"] + ["multi"], "upsert",
                  OptionalBool("upsert", upsert));
    case DeleteItem(q, limit) =>
      IsField("q", Object(q));
      IsOptionalInt("limit", limit);
      FirstName("q", Field("q", Object(q)));
      OneMoreName(Field("q", Object(q)), ["q"], "limit", OptionalInt("limit", limit));
  }

  lemma IsField(name: string, v: Zval)
    ensures var f := Field(name, v); f != Nil && f == Field(name, f.val)
  {
  }

  lemma IsOptionalBool(name: string, b: Option<bool>)
    ensures var f := OptionalBool(name, b); f == Nil || f == Field(name, f.val)
  {
  }

  lemma IsOptionalInt(name: string, n: int32)
    ensures var f := OptionalInt(name, n); f == Nil || f == Field(name, f.val)
  {
  }

  lemma ConcernNamesAreOwn(o: WriteOptions)
    ensures OwnNames(ConcernTable(o))
  {
    hide OwnNames, Among, Append, Field;
    var t1 := OptionalBool("fsync", o.fsync);
    var t2 := Append(t1, OptionalBool("j", o.j));
    var t3 := Append(t2, OptionalInt("wtimeout", o.wtimeout));
    IsOptionalBool("fsync", o.fsync);
    IsOptionalBool("j", o.j);
    IsOptionalInt("wtimeout", o.wtimeout);
    FirstName("fsync", t1);
    OneMoreName(t1, ["fsync"], "j", OptionalBool("j", o.j));
    OneMoreName(t2, ["fsync"] + ["j"], "wtimeout", OptionalInt("wtimeout", o.wtimeout));
    var w := match o.w case NoW => Nil case WNumber(n) => Field("w", Int32(n)) case WTag(tag) => Field("w", Str(tag));
    if !o.w.NoW? {
      IsField("w", if o.w.WNumber? then Int32(o.w.n) else Str(o.w.tag));
    }
    OneMoreName(t3, ["fsync"] + ["j"] + ["wtimeout"], "w", w);
  }

  lemma CommandNamesAreOwn(typ: WriteType, collection: cstring, items: seq<WriteItem>, o: Option<WriteOptions>)
    requires |items| <= LONG_MAX
    ensures OwnNames(CommandTable(typ, collection, items, o))
  {
    hide OwnNames, Among, Append, Field, ItemsTable, ConcernTable;
    var one, two := Field(CommandName(typ), Str(collection)), Field(FieldName(typ), Arr(ItemsTable(items)));
    IsField(CommandName(typ), Str(collection));
    IsField(FieldName(typ), Arr(ItemsTable(items)));
    FirstName(CommandName(typ), one);
    OneMoreName(one, [CommandName(typ)], FieldName(typ), two);
    if o.None? {
      AppendNil(Append(one, two));
    } else {
      var ordered := OptionalBool("ordered", o.value.ordered);
      var concern := Field("writeConcern", Object(ConcernTable(o.value)));
      IsOptionalBool("ordered", o.value.ordered);
      IsField("writeConcern", Object(ConcernTable(o.value)));
      OneMoreName(Append(one, two), [CommandName(typ)] + [FieldName(typ)], "ordered", ordered);
      OneMoreName(Append(Append(one, two), ordered), [CommandName(typ)] + [FieldName(typ)] + ["ordered"],
                  "writeConcern", concern);
      AppendAssoc(Append(one, two), ordered, concern);
    }
  }

  lemma {:induction false} LaterNumbersAreFree(items: seq<WriteItem>, n: index)
    requires |items| <= n
    ensures !HasKey(ItemsTable(items), IntKey(n))
  {
    if items != [] {
      var last := |items| - 1;
      LaterNumbersAreFree(items[..last], n);
      HasKeyAppend(ItemsTable(items[..last]), Entry(IntKey(last), Object(ItemTable(items[last])), Nil), IntKey(n));
    }
  }

  lemma {:induction false} NumbersAreOwn(items: seq<WriteItem>)
    requires |items| <= LONG_MAX
    ensures OwnNames(ItemsTable(items))
  {
    hide ItemTable, SymKey;
    if items != [] {
      var last := |items| - 1;
      NumbersAreOwn(items[..last]);
      LaterNumbersAreFree(items[..last], last);
      SymKeyOfDec(last);
      OwnAppend(ItemsTable(items[..last]), Entry(IntKey(last), Object(ItemTable(items[last])), Nil));
    }
  }
}
