/** The duplicate-message guard of handlers/utils.py: a set of message ids
  * that the handlers check, then add to, then hand to `clean_message_log`,
  * which empties it wholesale once it holds more than 1000 ids.
  *
  * Two models are given. `Log` is the guard as intended: one set, cleared in
  * place. `UtilsModule` and `RunAsWritten` model the code as written: the
  * handlers bind the set object at import time (`from .utils import
  * _MESSAGES_LOG`), while `clean_message_log` rebinds the module global to a
  * fresh set, so the handlers' set is never the one that gets emptied. */
module MessageLog {

  /** The size above which `clean_message_log` empties the log. */
  const Capacity: nat := 1000

  /** The log after `clean_message_log`: emptied wholesale above the
    * capacity, otherwise kept as it is. */
  function Cleaned(ids: set<int>): (r: set<int>)
    ensures |r| <= Capacity
    ensures r == ids || r == {}
    ensures |ids| <= Capacity ==> r == ids
  {
    if |ids| > Capacity then {} else ids
  }

  /** One guarded message: a known id is refused and the log is left as it
    * is; a new id is admitted, recorded, and the log cleaned. */
  function Admit(ids: set<int>, id: int): (int, set<int>)
  {
    if id in ids then (0, ids) else (1, Cleaned(ids + {id}))
  }

  /** The guard after a stream of messages, with the ids it admitted in order. */
  function Guard(ids: set<int>, stream: seq<int>): (set<int>, seq<int>)
    decreases |stream|
  {
    if stream == [] then (ids, [])
    else
      var (ok, next) := Admit(ids, stream[0]);
      var (final, admitted) := Guard(next, stream[1..]);
      (final, if ok == 1 then [stream[0]] + admitted else admitted)
  }

  /** The log never holds more than 1000 ids after a message is handled,
    * whatever the stream. */
  lemma {:induction false} GuardStaysBounded(ids: set<int>, stream: seq<int>)
    requires |ids| <= Capacity
    ensures |Guard(ids, stream).0| <= Capacity
    decreases |stream|
  {
    if stream != [] {
      GuardStaysBounded(Admit(ids, stream[0]).1, stream[1..]);
    }
  }

  /** The ids occurring in a stream. */
  function Elements(stream: seq<int>): set<int>
  {
    set x | x in stream
  }

  lemma ElementsCons(stream: seq<int>)
    requires stream != []
    ensures Elements(stream) == {stream[0]} + Elements(stream[1..])
  {
    assert stream == [stream[0]] + stream[1..];
  }

  /** While the log cannot overflow, it is exactly the ids seen. */
  lemma {:induction false} GuardRemembersAll(ids: set<int>, stream: seq<int>)
    requires |ids| + |stream| <= Capacity
    ensures Guard(ids, stream).0 == ids + Elements(stream)
    decreases |stream|
  {
    if stream != [] {
      var next := Admit(ids, stream[0]).1;
      assert |ids + {stream[0]}| <= |ids| + 1;
      assert next == ids + {stream[0]};
      GuardRemembersAll(next, stream[1..]);
      ElementsCons(stream);
    }
  }

  /** The position of the first arrival of `x` in `stream`. */
  function First(stream: seq<int>, x: int): (k: nat)
    requires x in stream
    ensures k < |stream| && stream[k] == x
  {
    if stream[0] == x then 0 else 1 + First(stream[1..], x)
  }

  /** No earlier message carries `x`: `First` is the first arrival. */
  lemma {:induction false} FirstArrival(stream: seq<int>, x: int)
    requires x in stream
    ensures forall i :: 0 <= i < First(stream, x) ==> stream[i] != x
  {
    if stream[0] != x {
      FirstArrival(stream[1..], x);
      forall i | 1 <= i < First(stream, x)
        ensures stream[i] != x
      {
        assert stream[i] == stream[1..][i - 1];
      }
    }
  }

  /** `admitted` is what a duplicate guard starting from `ids` should let
    * through from `stream`: every id of the stream not already in `ids`,
    * once each, in the order of first arrival. */
  predicate AdmittedOnce(admitted: seq<int>, ids: set<int>, stream: seq<int>)
  {
    && (forall i, j :: 0 <= i < j < |admitted| ==> admitted[i] != admitted[j])
    && (forall i :: 0 <= i < |admitted| ==> admitted[i] !in ids && admitted[i] in stream)
    && (forall x :: x in stream && x !in ids ==> x in admitted)
    && (forall i, j :: 0 <= i < j < |admitted| ==> First(stream, admitted[i]) < First(stream, admitted[j]))
  }

  /** What is admitted after the first message arrived after it. */
  lemma AdmittedLater(id: int, ids: set<int>, tail: seq<int>, later: seq<int>)
    requires AdmittedOnce(later, ids + {id}, tail)
    ensures forall i :: 0 <= i < |later| ==>
      && later[i] != id && later[i] !in ids && later[i] in [id] + tail
      && First([id] + tail, later[i]) == 1 + First(tail, later[i])
    ensures forall x :: x in [id] + tail && x != id && x !in ids ==> x in later
  {
    var stream := [id] + tail;
    assert stream[1..] == tail;
  }

  /** A known id in front of a stream adds nothing to what is admitted. */
  lemma AdmitKnown(id: int, ids: set<int>, tail: seq<int>, later: seq<int>)
    requires id in ids
    requires AdmittedOnce(later, ids + {id}, tail)
    ensures AdmittedOnce(later, ids, [id] + tail)
  {
    AdmittedLater(id, ids, tail, later);
  }

  /** A new id in front of a stream is admitted first. */
  lemma AdmitNew(id: int, ids: set<int>, tail: seq<int>, later: seq<int>)
    requires id !in ids
    requires AdmittedOnce(later, ids + {id}, tail)
    ensures AdmittedOnce([id] + later, ids, [id] + tail)
  {
    var stream := [id] + tail;
    var admitted := [id] + later;
    AdmittedLater(id, ids, tail, later);
    assert First(stream, id) == 0;
    forall i | 0 < i < |admitted|
      ensures admitted[i] == later[i - 1]
    {
    }
    forall i, j | 0 <= i < j < |admitted|
      ensures admitted[i] != admitted[j] && First(stream, admitted[i]) < First(stream, admitted[j])
    {
    }
    forall i | 0 <= i < |admitted|
      ensures admitted[i] !in ids && admitted[i] in stream
    {
    }
    forall x | x in stream && x !in ids
      ensures x in admitted
    {
      if x != id {
        assert x in later;
      }
    }
  }

  /** While the log cannot overflow, the guard admits every new id exactly
    * once, at its first arrival, and no id already in the log. */
  lemma {:induction false} GuardAdmitsOnce(ids: set<int>, stream: seq<int>)
    requires |ids| + |stream| <= Capacity
    ensures AdmittedOnce(Guard(ids, stream).1, ids, stream)
    decreases |stream|
  {
    if stream != [] {
      var id, tail := stream[0], stream[1..];
      assert stream == [id] + tail;
      var next := Admit(ids, id).1;
      assert |ids + {id}| <= |ids| + 1;
      assert next == ids + {id};
      GuardAdmitsOnce(next, tail);
      var later := Guard(next, tail).1;
      if id in ids {
        assert Guard(ids, stream).1 == later;
        AdmitKnown(id, ids, tail, later);
      } else {
        assert Guard(ids, stream).1 == [id] + later;
        AdmitNew(id, ids, tail, later);
      }
    }
  }

  /** A replay slips through after a wholesale clean-up: with ids 0..999 in
    * the log, a new id overflows it, the log is emptied, and id 0 is admitted
    * again. */
  lemma ReplayAfterCleanup()
    ensures Admit(Range(1000), 1000).1 == {}
    ensures Admit(Admit(Range(1000), 1000).1, 0).0 == 1
  {
    RangeSize(1000);
    RangeMembers(1000);
    assert |Range(1000) + {1000}| == 1001;
  }

  /** The ids 0 .. n-1. */
  function Range(n: nat): set<int>
  {
    if n == 0 then {} else Range(n - 1) + {n - 1}
  }

  lemma {:induction false} RangeMembers(n: nat)
    ensures forall x :: x in Range(n) <==> 0 <= x < n
  {
    if n > 0 {
      RangeMembers(n - 1);
    }
  }

  /** The range 0 .. n-1 has n ids. */
  lemma {:induction false} RangeSize(n: nat)
    ensures |Range(n)| == n
  {
    if n > 0 {
      RangeSize(n - 1);
      RangeMembers(n - 1);
      assert n - 1 !in Range(n - 1);
    }
  }

  /** The intended guard: one set of ids, cleared in place. */
  class Log {
    var ids: set<int>

    ghost predicate Valid()
      reads this
    {
      |ids| <= Capacity
    }

    /** `_MESSAGES_LOG: Set[int] = set()`: the log starts empty. */
    constructor ()
      ensures Valid() && ids == {}
    {
      ids := {};
    }

    /** `message.message_id in _MESSAGES_LOG`. */
    predicate Seen(id: int)
      reads this
    {
      id in ids
    }

    /** `_MESSAGES_LOG.add(message.message_id)`. */
    method Record(id: int)
      modifies this
      ensures ids == old(ids) + {id}
    {
      ids := ids + {id};
    }

    /** `clean_message_log`, clearing the one log every caller holds. */
    method Clean()
      modifies this
      ensures Valid()
      ensures ids == Cleaned(old(ids))
      ensures |old(ids)| > Capacity ==> ids == {}
      ensures |old(ids)| <= Capacity ==> ids == old(ids)
    {
      if |ids| > Capacity {
        ids := {};
      }
    }
  }

  /** A Python set object: handlers and module share it by reference. */
  class IdSet {
    var ids: set<int>

    constructor ()
      ensures ids == {}
    {
      ids := {};
    }
  }

  /** The module handlers/utils.py, whose global `_MESSAGES_LOG` names a set object. */
  class UtilsModule {
    var messagesLog: IdSet

    constructor ()
      ensures fresh(messagesLog) && messagesLog.ids == {}
    {
      messagesLog := new IdSet();
    }

    /** `clean_message_log` as written: above 1000 ids the global is
      * rebound to a new empty set; the old set object keeps its ids. */
    method CleanMessageLog()
      modifies this
      ensures |old(messagesLog.ids)| > Capacity ==> fresh(messagesLog) && messagesLog.ids == {}
      ensures |old(messagesLog.ids)| <= Capacity ==> messagesLog == old(messagesLog)
    {
      if |messagesLog.ids| > Capacity {
        messagesLog := new IdSet();
      }
    }
  }

  /** The handlers' check-add-clean on the set object they imported. The id
    * is added to that object; the clean-up may rebind the module global but
    * never empties the imported object. */
  method AdmitAsWritten(utils: UtilsModule, imported: IdSet, id: int) returns (admitted: bool)
    modifies utils, imported
    ensures admitted == (id !in old(imported.ids))
    ensures imported.ids == old(imported.ids) + {id}
    ensures utils.messagesLog == old(utils.messagesLog) || (fresh(utils.messagesLog) && utils.messagesLog.ids == {})
  {
    if id in imported.ids {
      return false;
    }
    imported.ids := imported.ids + {id};
    utils.CleanMessageLog();
    admitted := true;
  }

  /** A stream of messages through the handlers as written: the imported set
    * ends up holding every id of the stream, however many, and no id is ever
    * admitted twice; the module global, once rebound, stays empty. */
  method RunAsWritten(stream: seq<int>) returns (handlerLog: set<int>, admittedCount: nat)
    ensures handlerLog == Elements(stream)
    ensures admittedCount == |handlerLog|
  {
    var utils := new UtilsModule();
    var imported := utils.messagesLog;
    admittedCount := 0;
    var k := 0;
    while k < |stream|
      invariant 0 <= k <= |stream|
      invariant imported.ids == Elements(stream[..k])
      invariant admittedCount == |imported.ids|
      invariant utils.messagesLog == imported || utils.messagesLog.ids == {}
    {
      var before := imported.ids;
      var ok := AdmitAsWritten(utils, imported, stream[k]);
      if ok {
        assert |before + {stream[k]}| == |before| + 1;
        admittedCount := admittedCount + 1;
      } else {
        assert before + {stream[k]} == before;
      }
      assert stream[..k + 1] == stream[..k] + [stream[k]];
      assert Elements(stream[..k + 1]) == before + {stream[k]};
      k := k + 1;
    }
    assert stream[..k] == stream;
    handlerLog := imported.ids;
  }

  /** The as-written guard outgrows its bound: the handlers' set keeps every
    * id of any stream, so 1001 distinct messages leave 1001 ids in it, past
    * the 1000 at which it should have been emptied. The intended guard stays
    * within the bound on the same stream (`GuardStaysBounded`). */
  lemma AsWrittenExceedsCapacity(stream: seq<int>)
    requires Elements(stream) == Range(1001)
    ensures |Elements(stream)| > Capacity
    ensures |Guard({}, stream).0| <= Capacity
  {
    RangeSize(1001);
    GuardStaysBounded({}, stream);
  }
}
