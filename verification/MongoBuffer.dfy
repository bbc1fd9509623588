/** The growable buffer under the encoder: `start`, `pos` and `end` of mongo_buffer, with the
    pending exception of the request beside it. */
module MongoBuffers {
  import opened Bytes
  import opened Values
  import opened Bson

  const GROW_SLOWLY := 1048576
  const INITIAL_BUF_SIZE := 4096

  /** Consecutive stretches of a buffer. */
  lemma Joined(before: bytes, after: bytes, p: nat, q: nat, r: nat)
    requires p <= q <= |before| && q <= r <= |after| && before[..q] <= after
    ensures after[p..r] == before[p..q] + after[q..r]
  {
    assert before[p..q] == after[p..q];
  }

  class MongoBuffer {
    /** data.Length is end - start */
    var data: array<byte>
    /** pos - start; a reserved length slot may lie beyond the end until the next write */
    var pos: nat
    /** EG(exception): the code of the first exception thrown */
    var exception: Option<int>

    ghost predicate Valid()
      reads this
    {
      data.Length >= 4 && pos <= data.Length + 4
    }

    /** What is in memory before pos. */
    ghost function Written(): bytes
      reads this, data
    {
      if pos <= data.Length then data[..pos] else data[..]
    }

    constructor (size: nat)
      requires size >= 4
      ensures Valid() && fresh(data) && pos == 0 && data.Length == size && exception == None
    {
      data := new byte[size];
      pos := 0;
      exception := None;
    }

    function Remaining(): int
      reads this
    {
      data.Length - pos
    }

    /** resize_buf: grow so that size bytes fit, keeping what has been written. */
    method Resize(size: nat)
      requires Valid()
      modifies this`data
      ensures Valid() && fresh(data)
      ensures Remaining() >= size && data.Length >= old(data.Length)
      ensures old(Written()) <= data[..]
    {
      var total := data.Length;
      var used := pos;
      total := if total < GROW_SLOWLY then total * 2 else total + INITIAL_BUF_SIZE;
      while total - used < size
        invariant total >= data.Length + 4 || total >= 2 * data.Length
        invariant total >= used
        decreases size - (total - used)
      {
        total := total + size;
      }
      var grown := new byte[total];
      forall i | 0 <= i < data.Length {
        grown[i] := data[i];
      }
      data := grown;
    }

    /** Every serialize function begins by making room, with `need` or fewer bytes left. */
    method MakeRoom(need: nat)
      requires Valid()
      modifies this`data
      ensures Valid() && Remaining() >= need
      ensures data == old(data) || fresh(data)
      ensures old(Written()) <= data[..]
    {
      if Remaining() <= need {
        Resize(need);
      }
    }

    /** memcpy to pos and advance. */
    method Store(bs: bytes)
      requires Valid() && Remaining() >= |bs|
      modifies this`pos, data
      ensures Valid() && pos == old(pos) + |bs| <= data.Length
      ensures data[..] == old(data[..pos]) + bs + old(data[pos + |bs|..])
    {
      forall i | 0 <= i < |bs| {
        data[pos + i] := bs[i];
      }
      pos := pos + |bs|;
    }

    /** Append bs; the shape of serialize_byte, _bytes, _string, _int, _long and _double. */
    method Put(bs: bytes)
      requires Valid()
      modifies this`data, this`pos, data
      ensures Valid() && pos == old(pos) + |bs| <= data.Length
      ensures data == old(data) || fresh(data)
      ensures data[old(pos)..pos] == bs
      ensures old(Written()) <= data[..]
    {
      MakeRoom(|bs|);
      Store(bs);
    }

    method SerializeByte(b: byte)
      requires Valid()
      modifies this`data, this`pos, data
      ensures Valid() && pos == old(pos) + 1 <= data.Length
      ensures data == old(data) || fresh(data)
      ensures data[old(pos)..pos] == [b]
      ensures old(Written()) <= data[..]
    {
      Put([b]);
    }

    method SerializeInt(n: int)
      requires Valid()
      modifies this`data, this`pos, data
      ensures Valid() && pos == old(pos) + 4 <= data.Length
      ensures data == old(data) || fresh(data)
      ensures data[old(pos)..pos] == Le32(n)
      ensures old(Written()) <= data[..]
    {
      Put(Le32(n));
    }

    method SerializeLong(n: int)
      requires Valid()
      modifies this`data, this`pos, data
      ensures Valid() && pos == old(pos) + 8 <= data.Length
      ensures data == old(data) || fresh(data)
      ensures data[old(pos)..pos] == Le64(n)
      ensures old(Written()) <= data[..]
    {
      Put(Le64(n));
    }

    method SerializeString(s: bytes)
      requires Valid()
      modifies this`data, this`pos, data
      ensures Valid() && pos == old(pos) + |s| + 1 <= data.Length
      ensures data == old(data) || fresh(data)
      ensures data[old(pos)..pos] == s + [0]
      ensures old(Written()) <= data[..]
    {
      Put(s + [0]);
    }

    /** `buf->pos += INT_32`: a slot for a length, without looking at the room left. */
    method Reserve()
      requires Valid() && pos <= data.Length
      modifies this`pos
      ensures Valid() && pos == old(pos) + 4
    {
      pos := pos + 4;
    }

    method Throw(code: int)
      modifies this`exception
      ensures exception == if old(exception).Some? then old(exception) else Some(code)
    {
      if exception.None? {
        exception := Some(code);
      }
    }

    /** The 4 bytes at `at` become the distance from there to pos. */
    method Patch(at: nat)
      requires Valid() && at + 4 <= pos <= data.Length
      modifies data
      ensures data[..] == old(data[..at]) + Le32(pos - at) + old(data[at + 4..])
    {
      var size := Le32(pos - at);
      forall i | 0 <= i < 4 {
        data[at + i] := size[i];
      }
    }

    /** php_mongo_serialize_size */
    method SerializeSize(at: nat, max: int) returns (success: bool)
      requires Valid() && at + 4 <= pos <= data.Length
      modifies data, this`exception
      ensures success <==> pos - at <= max
      ensures success ==> data[..] == old(data[..at]) + Le32(pos - at) + old(data[at + 4..])
      ensures !success ==> data[..] == old(data[..])
      ensures exception == if success || old(exception).Some? then old(exception) else Some(3)
    {
      if pos - at > max {
        Throw(3);
        return false;
      }
      Patch(at);
      return true;
    }

    /** php_mongo_serialize_key: the name with its NUL, or an exception and nothing. */
    method SerializeKey(name: bytes, prep: bool, cfg: Config)
      requires Valid()
      modifies this`data, this`pos, this`exception, data
      ensures Valid() && (data == old(data) || fresh(data))
      ensures old(Written()) <= data[..]
      ensures NameError(name, prep, cfg).Some? ==> pos == old(pos)
      ensures exception == if old(exception).Some? then old(exception) else NameError(name, prep, cfg)
      ensures NameError(name, prep, cfg).None? ==>
                pos == old(pos) + |name| + 1 <= data.Length && data[old(pos)..pos] == WireName(name, cfg) + [0]
    {
      if (name == [] || name[0] == 0) && !cfg.allowEmptyKeys {
        Throw(1);
        return;
      }
      MakeRoom(|name| + 1);
      if StrLen(name) != |name| {
        Throw(2);
        return;
      }
      if prep && 46 in name {
        Throw(2);
        return;
      }
      Store(WireName(name, cfg) + [0]);
    }
  }
}
