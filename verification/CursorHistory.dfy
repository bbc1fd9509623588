/** What a client does with the cursors a server opens for it, as a history, and when that is lawful. */
module CursorHistory {
  import opened Bytes

  /** C stands for the connections. */
  datatype Event<C> =
    | Opened(id: int, con: C)     // a reply on con carried a new cursor id
    | Asked(id: int, con: C)      // a getMore for id was sent on con
    | Killed(id: int, con: C)     // a kill for id was sent on con
    | Exhausted(id: int)          // a reply said that the server closed the cursor
    | Lost(id: int)               // the connection is gone

  datatype Opening<C> = Opening(id: int, con: C)

  /** The server-side cursor that is open after the events, and the connection it was opened on. */
  function Owner<C>(h: seq<Event<C>>): Option<Opening<C>> {
    if h == [] then None
    else
      match h[|h| - 1]
      case Opened(id, con) => Some(Opening(id, con))
      case Asked(_, _) => Owner(h[..|h| - 1])
      case _ => None
  }

  /** One cursor at a time, asked for and killed only where it was opened and only while it is open. */
  ghost predicate Lawful<C>(h: seq<Event<C>>) {
    h == [] ||
    (var before, e := h[..|h| - 1], h[|h| - 1];
     && Lawful(before)
     && match e
        case Opened(id, _) => Owner(before).None? && id != 0
        case Asked(id, con) => Owner(before) == Some(Opening(id, con))
        case Killed(id, con) => Owner(before) == Some(Opening(id, con))
        case Exhausted(id) => Owner(before).Some? && Owner(before).value.id == id
        case Lost(id) => Owner(before).Some? && Owner(before).value.id == id)
  }

  predicate Closes<C>(e: Event<C>, id: int) {
    (e.Killed? || e.Exhausted? || e.Lost?) && e.id == id
  }

  lemma {:induction false} PrefixIsLawful<C>(h: seq<Event<C>>, k: nat)
    requires Lawful(h) && k <= |h|
    ensures Lawful(h[..k])
  {
    if k == |h| {
      assert h[..k] == h;
    } else {
      PrefixIsLawful(h[..|h| - 1], k);
      assert h[..|h| - 1][..k] == h[..k];
    }
  }

  /** Every id that was opened and is not open at the end was killed, exhausted or lost. */
  lemma {:induction false} OpenedIsClosed<C>(h: seq<Event<C>>, i: nat)
    requires Lawful(h) && Owner(h).None? && i < |h| && h[i].Opened?
    ensures exists j :: i < j < |h| && Closes(h[j], h[i].id)
  {
    StaysOpen(h, i, |h|);
  }

  /** Until it is closed, a cursor that was opened is the one that is open. */
  lemma {:induction false} StaysOpen<C>(h: seq<Event<C>>, i: nat, k: nat)
    requires Lawful(h) && i < k <= |h| && h[i].Opened?
    ensures Lawful(h[..k])
    ensures Owner(h[..k]) == Some(Opening(h[i].id, h[i].con)) || exists j :: i < j < k && Closes(h[j], h[i].id)
    decreases k
  {
    PrefixIsLawful(h, k);
    assert h[..k][..k - 1] == h[..k - 1] && h[..k][k - 1] == h[k - 1];
    if k > i + 1 {
      StaysOpen(h, i, k - 1);
      if Owner(h[..k - 1]) == Some(Opening(h[i].id, h[i].con)) && !h[k - 1].Asked? {
        assert Closes(h[k - 1], h[i].id);
      }
    }
  }

  /** Between two kills of an id the server must have opened it anew. */
  lemma {:induction false} NoDoubleKill<C>(h: seq<Event<C>>, i: nat, k: nat)
    requires Lawful(h) && i < k < |h| && h[i].Killed? && h[k].Killed? && h[i].id == h[k].id
    ensures exists m :: i < m < k && h[m].Opened? && h[m].id == h[k].id && h[m].con == h[k].con
  {
    PrefixIsLawful(h, k + 1);
    assert h[..k + 1][..k] == h[..k];
    OpenSince(h, i, k);
  }

  /** What is open after a kill was opened after it. */
  lemma {:induction false} OpenSince<C>(h: seq<Event<C>>, i: nat, k: nat)
    requires Lawful(h) && i < k <= |h| && h[i].Killed?
    ensures Owner(h[..k]).Some? ==>
              exists m :: i < m < k && h[m].Opened? && h[m].id == Owner(h[..k]).value.id &&
                  h[m].con == Owner(h[..k]).value.con
    decreases k
  {
    assert h[..k][..k - 1] == h[..k - 1] && h[..k][k - 1] == h[k - 1];
    if k > i + 1 {
      OpenSince(h, i, k - 1);
    }
  }

  /** Every getMore and every kill goes to the connection whose reply opened the cursor. */
  lemma {:induction false} SentToOpener<C>(h: seq<Event<C>>, k: nat)
    requires Lawful(h) && k < |h| && (h[k].Asked? || h[k].Killed?)
    ensures exists m :: 0 <= m < k && h[m].Opened? && h[m].id == h[k].id && h[m].con == h[k].con
  {
    PrefixIsLawful(h, k + 1);
    assert h[..k + 1][..k] == h[..k];
    OwnerOpened(h, k);
  }

  lemma {:induction false} OwnerOpened<C>(h: seq<Event<C>>, k: nat)
    requires k <= |h| && Owner(h[..k]).Some?
    ensures exists m :: 0 <= m < k && h[m].Opened? && h[m].id == Owner(h[..k]).value.id &&
              h[m].con == Owner(h[..k]).value.con
  {
    assert h[..k][..k - 1] == h[..k - 1] && h[..k][k - 1] == h[k - 1];
    if h[k - 1].Asked? {
      OwnerOpened(h, k - 1);
    }
  }
}
