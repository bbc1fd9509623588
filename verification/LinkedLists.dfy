/**
 * The singly linked lists of mcon: the callbacks of a connection, the connections and the blacklist of a manager.  A
 * new entry is found a place by walking to the end; an entry is taken out by relinking the one before it.
 */
module LinkedLists {
  import opened Bytes

  /** The list without its first matching element. */
  function Dropped<T>(s: seq<T>, matches: T -> bool): seq<T> {
    if s == [] then [] else if matches(s[0]) then s[1..] else [s[0]] + Dropped(s[1..], matches)
  }

  predicate AnyMatch<T>(s: seq<T>, matches: T -> bool) {
    exists i :: 0 <= i < |s| && matches(s[i])
  }

  predicate AtMostOne<T>(s: seq<T>, matches: T -> bool) {
    forall i, j :: 0 <= i < j < |s| && matches(s[i]) ==> !matches(s[j])
  }

  lemma {:induction false} DroppedAt<T>(s: seq<T>, matches: T -> bool, i: nat)
    requires i < |s| && matches(s[i]) && !AnyMatch(s[..i], matches)
    ensures Dropped(s, matches) == s[..i] + s[i + 1..]
  {
    if i == 0 {
      assert s[..0] + s[1..] == s[1..];
    } else {
      assert !matches(s[..i][0]);
      assert s[1..][..i - 1] == s[..i][1..];
      NoneInTail(s[..i], matches);
      DroppedAt(s[1..], matches, i - 1);
      assert [s[0]] + (s[1..][..i - 1] + s[1..][i..]) == s[..i] + s[i + 1..];
    }
  }

  lemma NoneInTail<T>(s: seq<T>, matches: T -> bool)
    requires s != [] && !AnyMatch(s, matches)
    ensures !AnyMatch(s[1..], matches)
  {
    forall k | 0 <= k < |s| - 1
      ensures !matches(s[1..][k])
    {
      assert !matches(s[k + 1]);
    }
  }

  lemma {:induction false} DroppedAbsent<T>(s: seq<T>, matches: T -> bool)
    requires !AnyMatch(s, matches)
    ensures Dropped(s, matches) == s
  {
    if s != [] {
      assert !matches(s[0]);
      NoneInTail(s, matches);
      DroppedAbsent(s[1..], matches);
    }
  }

  /** Where at most one element matches, dropping takes out that one and nothing else. */
  lemma {:induction false} DroppedFromUnique<T>(s: seq<T>, matches: T -> bool)
    requires AtMostOne(s, matches)
    ensures !AnyMatch(Dropped(s, matches), matches)
    ensures forall x :: x in Dropped(s, matches) <==> x in s && !matches(x)
  {
    if i :| 0 <= i < |s| && matches(s[i]) {
      DroppedAt(s, matches, i);
      var rest := s[..i] + s[i + 1..];
      forall k | 0 <= k < |rest|
        ensures !matches(rest[k]) && rest[k] in s
      {
        assert rest[k] == s[if k < i then k else k + 1];
      }
      forall x | x in s && !matches(x)
        ensures x in rest
      {
        var k :| 0 <= k < |s| && s[k] == x;
        assert x == rest[if k < i then k else k - 1];
      }
    } else {
      DroppedAbsent(s, matches);
    }
  }

  /** What holds of every two elements in order still does. */
  lemma DroppedKeepsPairs<T>(s: seq<T>, matches: T -> bool, apart: (T, T) -> bool)
    requires AtMostOne(s, matches) && forall i, j :: 0 <= i < j < |s| ==> apart(s[i], s[j])
    ensures var r := Dropped(s, matches); forall i, j :: 0 <= i < j < |r| ==> apart(r[i], r[j])
  {
    if at :| 0 <= at < |s| && matches(s[at]) {
      DroppedAt(s, matches, at);
    } else {
      DroppedAbsent(s, matches);
    }
  }

  class Entry<T> {
    const data: T
    var next: Entry?<T>

    constructor (data: T)
      ensures this.data == data && next == null
    {
      this.data, next := data, null;
    }
  }

  class LinkedList<T> {
    var head: Entry?<T>
    ghost var entries: seq<Entry<T>>

    constructor ()
      ensures Valid() && Contents() == [] && entries == []
    {
      head, entries := null, [];
    }

    ghost predicate Valid()
      reads this, entries
    {
      && head == At(0)
      && (forall i :: 0 <= i < |entries| ==> entries[i].next == At(i + 1))
      && (forall i, j :: 0 <= i < j < |entries| ==> entries[i] != entries[j])
    }

    ghost function At(i: nat): Entry?<T>
      reads this
    {
      if i < |entries| then entries[i] else null
    }

    ghost function Contents(): seq<T>
      reads this`entries
    {
      Data(entries)
    }

    static ghost function Data(entries: seq<Entry<T>>): seq<T> {
      seq(|entries|, i requires 0 <= i < |entries| => entries[i].data)
    }

    static lemma DataWithout(entries: seq<Entry<T>>, i: nat)
      requires i < |entries|
      ensures Data(entries[..i] + entries[i + 1..]) == Data(entries)[..i] + Data(entries)[i + 1..]
    {
    }

    /** mongo_manager_add_connection_callback and mongo_manager_register */
    method Append(data: T)
      requires Valid()
      modifies this, entries
      ensures Valid() && Contents() == old(Contents()) + [data]
      ensures exists e :: fresh(e) && entries == old(entries) + [e]
    {
      var e := new Entry(data);
      if head == null {
        head := e;
      } else {
        var ptr: Entry<T> := head;
        ghost var i := 0;
        while ptr.next != null
          invariant i < |entries| && ptr == entries[i]
          decreases |entries| - i
        {
          ptr := ptr.next;
          i := i + 1;
        }
        ptr.next := e;
      }
      entries := entries + [e];
    }

    /** mongo_manager_find_by_hash */
    method Find(matches: T -> bool) returns (found: Option<T>)
      requires Valid()
      ensures found.Some? <==> AnyMatch(Contents(), matches)
      ensures found.Some? ==> found.value in Contents() && matches(found.value)
    {
      var ptr := head;
      ghost var i := 0;
      while ptr != null
        invariant i <= |entries| && ptr == At(i)
        invariant !AnyMatch(Contents()[..i], matches)
        decreases |entries| - i
      {
        if matches(ptr.data) {
          assert Contents()[i] == ptr.data;
          return Some(ptr.data);
        }
        assert Contents()[..i + 1] == Contents()[..i] + [Contents()[i]];
        ptr := ptr.next;
        i := i + 1;
      }
      assert Contents()[..i] == Contents();
      return None;
    }

    /** The pointer to entry number i, in the entry before it or in the head, is moved on. */
    method Unlink(prev: Entry?<T>, item: Entry<T>, ghost i: nat)
      requires Valid() && i < |entries| && item == entries[i] && prev == if i == 0 then null else entries[i - 1]
      modifies this, prev
      ensures Valid() && entries == old(entries[..i] + entries[i + 1..])
    {
      ghost var rest := entries[..i] + entries[i + 1..];
      assert forall k :: 0 <= k < |rest| ==> rest[k] == entries[if k < i then k else k + 1];
      if prev == null {
        head := item.next;
      } else {
        prev.next := item.next;
      }
      entries := rest;
    }

    /** mongo_deregister_callback_from_connection and mongo_manager_deregister */
    method RemoveFirst(matches: T -> bool) returns (removed: bool)
      requires Valid()
      modifies this, entries
      ensures Valid() && Contents() == Dropped(old(Contents()), matches)
      ensures removed <==> AnyMatch(old(Contents()), matches)
      ensures forall i :: 0 <= i < |entries| ==> entries[i] in old(entries)
    {
      hide Dropped;
      var prev: Entry?<T>, item := null, head;
      ghost var i := 0;
      ghost var was := Contents();
      while item != null
        invariant i <= |entries| && item == At(i) && prev == (if i == 0 then null else entries[i - 1])
        invariant !AnyMatch(was[..i], matches)
        modifies {}
        decreases |entries| - i
      {
        assert was[i] == item.data;
        if matches(item.data) {
          break;
        }
        assert was[..i + 1] == was[..i] + [was[i]];
        prev := item;
        item := item.next;
        i := i + 1;
      }
      if item == null {
        assert was[..i] == was;
        DroppedAbsent(was, matches);
        return false;
      }
      assert matches(was[i]);
      DroppedAt(was, matches, i);
      DataWithout(entries, i);
      Unlink(prev, item, i);
      return true;
    }
  }
}
