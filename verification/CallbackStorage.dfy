/** Pending asynchronous callbacks of an application (module-apps/apps-common/CallbackStorage.cpp). */
module CallbackStorage {
  import opened Options
  import opened Basics

  // A pending callback. `tag` numbers the registrations; `blocking` is ReceiverBehavior::WaitForResponseToClose.
  datatype Entry = Entry(id: nat, receiver: nat, hasFunction: bool, blocking: bool, tag: nat)

  ghost predicate Blocked(entries: seq<Entry>) {
    exists i :: 0 <= i < |entries| && entries[i].blocking
  }

  function FirstFor(entries: seq<Entry>, id: nat): (r: Option<Entry>)
    ensures r.Some? ==> r.value in entries && r.value.id == id
    ensures r.None? ==> forall e :: e in entries ==> e.id != id
  {
    if entries == [] then None
    else if entries[0].id == id then Some(entries[0])
    else FirstFor(entries[1..], id)
  }

  function WithoutId(entries: seq<Entry>, id: nat): (r: seq<Entry>)
    ensures forall e :: e in r <==> e in entries && e.id != id
  {
    if entries == [] then []
    else (if entries[0].id == id then [] else [entries[0]]) + WithoutId(entries[1..], id)
  }

  function WithoutReceiver(entries: seq<Entry>, receiver: nat): (r: seq<Entry>)
    ensures forall e :: e in r <==> e in entries && e.receiver != receiver
  {
    if entries == [] then []
    else (if entries[0].receiver == receiver then [] else [entries[0]]) + WithoutReceiver(entries[1..], receiver)
  }

  // What getCallback returns: a callback made from the response alone, from the entry's function, or nothing to do.
  datatype Callback = NullCallback | QueryCallback(tag: nat) | AsyncCallback(tag: nat)

  function GetCallback(entries: seq<Entry>, id: nat, isQuery: bool): (seq<Entry>, Callback) {
    match FirstFor(entries, id)
    case None => (entries, NullCallback)
    case Some(e) =>
      (WithoutId(entries, id),
       if isQuery then QueryCallback(e.tag) else if e.hasFunction then AsyncCallback(e.tag) else NullCallback)
  }

  // Registering a callback, and cancelling all of a receiver.
  datatype Effect = Register(id: nat, receiver: nat, hasFunction: bool, blocking: bool) | Cancel(receiver: nat)

  // The entries and the number of registrations after it.
  function After(entries: seq<Entry>, registrations: nat, effect: Effect): (seq<Entry>, nat) {
    match effect
    case Register(id, receiver, hasFunction, blocking) =>
      (entries + [Entry(id, receiver, hasFunction, blocking, registrations)], registrations + 1)
    case Cancel(receiver) => (WithoutReceiver(entries, receiver), registrations)
  }

  class Storage {
    var entries: seq<Entry>
    var registrations: nat

    constructor ()
      ensures entries == [] && registrations == 0
    {
      entries, registrations := [], 0;
    }

    method RegisterCallback(id: nat, receiver: nat, hasFunction: bool, blocking: bool)
      modifies this
      ensures entries == old(entries) + [Entry(id, receiver, hasFunction, blocking, old(registrations))]
      ensures registrations == old(registrations) + 1
    {
      entries := entries + [Entry(id, receiver, hasFunction, blocking, registrations)];
      registrations := registrations + 1;
    }

    method Retrieve(id: nat, isQuery: bool) returns (callback: Callback)
      modifies this`entries
      ensures (entries, callback) == GetCallback(old(entries), id, isQuery)
    {
      var entry := FirstFor(entries, id);
      if entry.None? {
        return NullCallback;
      }
      entries := WithoutId(entries, id);
      if isQuery {
        return QueryCallback(entry.value.tag);
      }
      if entry.value.hasFunction {
        return AsyncCallback(entry.value.tag);
      }
      return NullCallback;
    }

    method RemoveAll(receiver: nat)
      modifies this`entries
      ensures entries == WithoutReceiver(old(entries), receiver)
    {
      entries := WithoutReceiver(entries, receiver);
    }

    method CheckBlockingCloseRequests() returns (blocked: bool)
      ensures blocked == Blocked(entries)
    {
      for i := 0 to |entries|
        invariant forall k :: 0 <= k < i ==> !entries[k].blocking
      {
        if entries[i].blocking {
          return true;
        }
      }
      return false;
    }
  }

  // ----- Every run

  datatype Op = Change(effect: Effect) | Respond(id: nat, isQuery: bool)

  // Kept by an observer: which registrations were handed out, in order, which were withdrawn by a cancel, and which a
  // response to their id removed without handing them out.
  datatype Ledger = Ledger(entries: seq<Entry>, registrations: nat, handed: seq<nat>, withdrawn: set<nat>, passed: set<nat>)

  function Handed(c: Callback): seq<nat> {
    if c.NullCallback? then [] else [c.tag]
  }

  ghost function Tags(entries: seq<Entry>, receiver: nat): set<nat> {
    set e | e in entries && e.receiver == receiver :: e.tag
  }

  ghost function Record(l: Ledger, op: Op): Ledger {
    match op
    case Change(effect) =>
      var (entries, registrations) := After(l.entries, l.registrations, effect);
      l.(entries := entries, registrations := registrations,
         withdrawn := if effect.Cancel? then l.withdrawn + Tags(l.entries, effect.receiver) else l.withdrawn)
    case Respond(id, isQuery) =>
      var (entries, callback) := GetCallback(l.entries, id, isQuery);
      l.(entries := entries, handed := l.handed + Handed(callback),
         passed := l.passed + set e | e in l.entries && e.id == id && e.tag !in Handed(callback) :: e.tag)
  }

  ghost function RecordAll(l: Ledger, ops: seq<Op>): Ledger
    decreases |ops|
  {
    if ops == [] then l else RecordAll(Record(l, ops[0]), ops[1..])
  }

  ghost predicate Pending(l: Ledger, tag: nat) {
    exists e :: e in l.entries && e.tag == tag
  }

  // Every registration is pending, handed out, withdrawn or passed over, and never two of these; and handed out once.
  ghost predicate Accounted(l: Ledger) {
    && (forall a, b :: a in l.entries && b in l.entries && a.tag == b.tag ==> a == b)
    && (forall t: nat :: t < l.registrations ==> Pending(l, t) || t in l.handed || t in l.withdrawn || t in l.passed)
    && (forall e :: e in l.entries ==>
          e.tag < l.registrations && e.tag !in l.handed && e.tag !in l.withdrawn && e.tag !in l.passed)
    && (forall i, j :: 0 <= i < j < |l.handed| ==> l.handed[i] != l.handed[j])
    && (forall t :: t in l.handed ==> t < l.registrations && t !in l.withdrawn && t !in l.passed)
    && (forall t :: t in l.withdrawn ==> t < l.registrations && t !in l.passed)
    && (forall t :: t in l.passed ==> t < l.registrations)
  }

  lemma RespondAccounted(l: Ledger, id: nat, isQuery: bool)
    requires Accounted(l)
    ensures Accounted(Record(l, Respond(id, isQuery)))
  {
    hide WithoutId;
    hide FirstFor;
  }

  lemma CancelAccounted(l: Ledger, receiver: nat)
    requires Accounted(l)
    ensures Accounted(Record(l, Change(Cancel(receiver))))
  {
    hide WithoutReceiver;
  }

  lemma StepAccounted(l: Ledger, op: Op)
    requires Accounted(l)
    ensures Accounted(Record(l, op))
  {
    match op
    case Change(Register(id, receiver, hasFunction, blocking)) =>
    case Change(Cancel(receiver)) => CancelAccounted(l, receiver);
    case Respond(id, isQuery) => RespondAccounted(l, id, isQuery);
  }

  // Over every run each callback is handed out at most once, and never after its receiver was cancelled.
  lemma {:induction false} RunAccounted(l: Ledger, ops: seq<Op>)
    requires Accounted(l)
    ensures Accounted(RecordAll(l, ops))
    decreases |ops|
  {
    if ops != [] {
      StepAccounted(l, ops[0]);
      RunAccounted(Record(l, ops[0]), ops[1..]);
    }
  }

  // The k-th entry is the first that waits for that id.
  ghost predicate FirstWaiting(entries: seq<Entry>, id: nat, k: nat) {
    k < |entries| && entries[k].id == id && forall i :: 0 <= i < k ==> entries[i].id != id
  }

  lemma {:induction false} FirstForIsFirstWaiting(entries: seq<Entry>, id: nat, k: nat)
    requires FirstWaiting(entries, id, k)
    ensures FirstFor(entries, id) == Some(entries[k])
    decreases |entries|
  {
    if k != 0 {
      assert forall i :: 0 <= i < |entries| - 1 ==> entries[1..][i] == entries[i + 1];
      FirstForIsFirstWaiting(entries[1..], id, k - 1);
    }
  }

  // A response to a request nobody waits for gets the null callback and changes nothing. To one somebody waits for, it
  // takes every entry of that id and no other, and the first of them decides: a query response gets a query callback
  // and any other the entry's function, or the null callback if it has none.
  lemma ResponseTakesItsEntries(entries: seq<Entry>, id: nat, isQuery: bool)
    ensures var (rest, callback) := GetCallback(entries, id, isQuery);
            && (forall e :: e in rest <==> e in entries && e.id != id)
            && ((forall e :: e in entries ==> e.id != id) ==> rest == entries && callback == NullCallback)
            && (forall k: nat :: FirstWaiting(entries, id, k) ==>
                  callback == if isQuery then QueryCallback(entries[k].tag)
                              else if entries[k].hasFunction then AsyncCallback(entries[k].tag)
                              else NullCallback)
            && (!callback.NullCallback? ==> exists e :: e in entries && e.id == id && e.tag == callback.tag)
  {
    hide WithoutId;
    hide FirstFor;
    var found := FirstFor(entries, id);
    if found.Some? {
      assert found.value in entries;
    }
    forall k: nat | FirstWaiting(entries, id, k)
      ensures found == Some(entries[k])
    {
      FirstForIsFirstWaiting(entries, id, k);
    }
  }

  // What stays after a response or a cancel stays in its order: each entry is kept or removed by itself.
  lemma {:induction false} ResponseRemovesEntryByEntry(a: seq<Entry>, b: seq<Entry>, id: nat)
    ensures WithoutId(a + b, id) == WithoutId(a, id) + WithoutId(b, id)
    ensures |a| == 1 ==> WithoutId(a, id) == if a[0].id == id then [] else a
    decreases |a|
  {
    if a == [] {
      assert a + b == b;
    } else {
      assert (a + b)[1..] == a[1..] + b;
      ResponseRemovesEntryByEntry(a[1..], b, id);
      Regroup(if a[0].id == id then [] else [a[0]], WithoutId(a[1..], id), WithoutId(b, id));
    }
  }

  lemma {:induction false} CancelRemovesEntryByEntry(a: seq<Entry>, b: seq<Entry>, receiver: nat)
    ensures WithoutReceiver(a + b, receiver) == WithoutReceiver(a, receiver) + WithoutReceiver(b, receiver)
    ensures |a| == 1 ==> WithoutReceiver(a, receiver) == if a[0].receiver == receiver then [] else a
    decreases |a|
  {
    if a == [] {
      assert a + b == b;
    } else {
      assert (a + b)[1..] == a[1..] + b;
      CancelRemovesEntryByEntry(a[1..], b, receiver);
      Regroup(if a[0].receiver == receiver then [] else [a[0]],
              WithoutReceiver(a[1..], receiver), WithoutReceiver(b, receiver));
    }
  }
}
