/** Pending popups: the priority queue (WindowsPopupQueue.cpp), its order (WindowsPopupRequest.cpp) and the filter
    that says which may be shown now (WindowsPopupFilter.cpp). */
module Popups {
  import opened Options
  import opened Windows

  datatype FilterType = Show | Ignore | Remove

  // `arrival` numbers the requests in the order in which they were made.
  datatype Request = Request(id: PopupId, priority: nat, arrival: nat)

  // The application's own filters, each of which may be null, and the windows stack, if one is attached.
  datatype Filter = Filter(appDependent: seq<Option<Request -> FilterType>>, stack: Option<Stack>)

  // ----- The filter

  // All set filters say Show; and the top window, if there is one, is of the same popup or no higher priority.
  ghost predicate Permits(f: Filter, r: Request) {
    && (forall i :: 0 <= i < |f.appDependent| && f.appDependent[i].Some? ==> f.appDependent[i].value(r) == Show)
    && (f.stack.Some? && f.stack.value != [] ==>
          var top := f.stack.value[|f.stack.value| - 1].disposition;
          top.id == r.id || top.priority <= r.priority)
  }

  method IsPermitted(f: Filter, r: Request) returns (yes: bool)
    ensures yes == Permits(f, r)
  {
    for i := 0 to |f.appDependent|
      invariant forall k :: 0 <= k < i && f.appDependent[k].Some? ==> f.appDependent[k].value(r) == Show
    {
      var filter := f.appDependent[i];
      if filter.Some? && filter.value(r) != Show {
        return false;
      }
    }
    if f.stack.Some? {
      if f.stack.value == [] {
        return true;
      }
      var top := f.stack.value[|f.stack.value| - 1].disposition;
      if top.id == r.id {
        return true;
      }
      if top.priority > r.priority {
        return false;
      }
    }
    return true;
  }

  // Unlike isPermitted, addPopup takes a null filter for a refusal.
  method AddPopup(f: Filter, r: Request) returns (yes: bool)
    ensures yes <==> forall i :: 0 <= i < |f.appDependent| ==>
                       f.appDependent[i].Some? && f.appDependent[i].value(r) != Remove
  {
    for i := 0 to |f.appDependent|
      invariant forall k :: 0 <= k < i ==> f.appDependent[k].Some? && f.appDependent[k].value(r) != Remove
    {
      if f.appDependent[i].None? || f.appDependent[i].value(r) == Remove {
        return false;
      }
    }
    return true;
  }

  // ----- The queue

  // Highest priority first; among equals, first come first.
  ghost predicate Before(a: Request, b: Request) {
    a.priority > b.priority || (a.priority == b.priority && a.arrival < b.arrival)
  }

  ghost predicate Ordered(q: seq<Request>) {
    forall i, j :: 0 <= i < j < |q| ==> Before(q[i], q[j])
  }

  // std::multiset::emplace puts a request after all that are not of lower priority.
  function Insert(q: seq<Request>, r: Request): seq<Request> {
    if q == [] || q[0].priority < r.priority then [r] + q else [q[0]] + Insert(q[1..], r)
  }

  lemma {:induction false} InsertAt(q: seq<Request>, r: Request, i: nat)
    requires i <= |q| && (i < |q| ==> q[i].priority < r.priority)
    requires forall k :: 0 <= k < i ==> q[k].priority >= r.priority
    ensures Insert(q, r) == q[..i] + [r] + q[i..]
  {
    if i != 0 {
      InsertAt(q[1..], r, i - 1);
      assert q[..i] == [q[0]] + q[1..][..i - 1] && q[i..] == q[1..][i - 1..];
    }
  }

  function RemoveAt(q: seq<Request>, j: nat): (rest: seq<Request>)
    requires j < |q|
    ensures multiset(rest) + multiset{q[j]} == multiset(q)
  {
    assert q == q[..j] + [q[j]] + q[j + 1..];
    q[..j] + q[j + 1..]
  }

  // k is the first request the filter permits.
  ghost predicate FirstPermitted(f: Filter, q: seq<Request>, k: nat) {
    k < |q| && Permits(f, q[k]) && forall i :: 0 <= i < k ==> !Permits(f, q[i])
  }

  class WindowsPopupQueue {
    var requests: seq<Request>

    constructor ()
      ensures requests == []
    {
      requests := [];
    }

    method Clear()
      modifies this
      ensures requests == []
    {
      requests := [];
    }

    method PushRequest(r: Request)
      modifies this
      ensures requests == Insert(old(requests), r)
    {
      hide Insert;
      var i := 0;
      while i < |requests| && requests[i].priority >= r.priority
        invariant 0 <= i <= |requests|
        invariant forall k :: 0 <= k < i ==> requests[k].priority >= r.priority
      {
        i := i + 1;
      }
      InsertAt(requests, r, i);
      requests := requests[..i] + [r] + requests[i..];
    }

    // extract(val) goes by the order, so it takes some request of the priority of the first one permitted.
    method PopRequest(f: Filter) returns (r: Option<Request>, ghost k: nat, ghost j: nat)
      modifies this
      ensures r.None? <==> forall i :: 0 <= i < |old(requests)| ==> !Permits(f, old(requests)[i])
      ensures r.None? ==> requests == old(requests)
      ensures r.Some? ==>
                && FirstPermitted(f, old(requests), k) && j < |old(requests)|
                && old(requests)[j].priority == old(requests)[k].priority
                && r.value == old(requests)[j] && requests == RemoveAt(old(requests), j)
    {
      k, j := 0, 0;
      for i := 0 to |requests|
        invariant requests == old(requests)
        invariant forall n :: 0 <= n < i ==> !Permits(f, requests[n])
      {
        var permitted := IsPermitted(f, requests[i]);
        if permitted {
          assert requests[i].priority == requests[i].priority;
          var e :| 0 <= e < |requests| && requests[e].priority == requests[i].priority;
          r := Some(requests[e]);
          k, j := i, e;
          requests := requests[..e] + requests[e + 1..];
          return;
        }
      }
      r := None;
    }
  }

  // ----- Every run

  // `extracted` is which of the equal ones extract takes.
  datatype Op = Push(id: PopupId, priority: nat) | Pop(extracted: nat) | Clear

  datatype Pending = Pending(queue: seq<Request>, arrivals: nat)

  function Step(s: Pending, op: Op): Pending {
    match op
    case Push(id, priority) => Pending(Insert(s.queue, Request(id, priority, s.arrivals)), s.arrivals + 1)
    case Pop(extracted) => if extracted < |s.queue| then s.(queue := RemoveAt(s.queue, extracted)) else s
    case Clear => s.(queue := [])
  }

  function Run(s: Pending, ops: seq<Op>): Pending
    decreases |ops|
  {
    if ops == [] then s else Run(Step(s, ops[0]), ops[1..])
  }

  ghost predicate QueueInvariant(s: Pending) {
    Ordered(s.queue) && forall i :: 0 <= i < |s.queue| ==> s.queue[i].arrival < s.arrivals
  }

  lemma {:induction false} InsertOrdered(q: seq<Request>, r: Request)
    requires Ordered(q) && forall i :: 0 <= i < |q| ==> q[i].arrival < r.arrival
    ensures Ordered(Insert(q, r))
    ensures multiset(Insert(q, r)) == multiset(q) + multiset{r}
    decreases |q|
  {
    if q != [] && r.priority <= q[0].priority {
      var rest := Insert(q[1..], r);
      InsertOrdered(q[1..], r);
      assert q == [q[0]] + q[1..];
      forall i | 0 <= i < |rest|
        ensures Before(q[0], rest[i])
      {
        assert rest[i] in multiset(rest);
        assert rest[i] == r || rest[i] in q[1..];
      }
    } else {
      assert forall i :: 0 <= i < |q| ==> q[i].priority < r.priority;
    }
  }

  lemma StepKeepsOrder(s: Pending, op: Op)
    requires QueueInvariant(s)
    ensures QueueInvariant(Step(s, op))
  {
    if op.Push? {
      var r := Request(op.id, op.priority, s.arrivals);
      InsertOrdered(s.queue, r);
      var q := Insert(s.queue, r);
      forall i | 0 <= i < |q|
        ensures q[i].arrival < s.arrivals + 1
      {
        assert q[i] in multiset(q);
        assert q[i] == r || q[i] in s.queue;
      }
    }
  }

  // Whatever is pushed, popped and cleared, and whichever equal request extract takes.
  lemma {:induction false} RunKeepsOrder(s: Pending, ops: seq<Op>)
    requires QueueInvariant(s)
    ensures QueueInvariant(Run(s, ops))
    decreases |ops|
  {
    if ops != [] {
      StepKeepsOrder(s, ops[0]);
      RunKeepsOrder(Step(s, ops[0]), ops[1..]);
    }
  }

  // How often a call pushes that request, numbered as it comes, and how often it takes it out, alone or by a clear.
  function PushedBy(op: Op, arrivals: nat, r: Request): nat {
    if op.Push? && r == Request(op.id, op.priority, arrivals) then 1 else 0
  }

  function TakenBy(q: seq<Request>, op: Op, r: Request): nat {
    if op.Clear? then multiset(q)[r]
    else if op.Pop? && op.extracted < |q| && q[op.extracted] == r then 1
    else 0
  }

  lemma StepConserves(s: Pending, op: Op, r: Request)
    requires QueueInvariant(s)
    ensures multiset(s.queue)[r] + PushedBy(op, s.arrivals, r) == TakenBy(s.queue, op, r) + multiset(Step(s, op).queue)[r]
    ensures Step(s, op).arrivals == if op.Push? then s.arrivals + 1 else s.arrivals
  {
    if op.Push? {
      InsertOrdered(s.queue, Request(op.id, op.priority, s.arrivals));
    }
  }

  function TimesPushed(ops: seq<Op>, arrivals: nat, r: Request): nat
    decreases |ops|
  {
    if ops == [] then 0
    else PushedBy(ops[0], arrivals, r) + TimesPushed(ops[1..], if ops[0].Push? then arrivals + 1 else arrivals, r)
  }

  function TimesTaken(s: Pending, ops: seq<Op>, r: Request): nat
    decreases |ops|
  {
    if ops == [] then 0 else TakenBy(s.queue, ops[0], r) + TimesTaken(Step(s, ops[0]), ops[1..], r)
  }

  // Over every run, each request that was there or was pushed has come out once or is still there.
  lemma {:induction false} RunConserves(s: Pending, ops: seq<Op>, r: Request)
    requires QueueInvariant(s)
    ensures multiset(s.queue)[r] + TimesPushed(ops, s.arrivals, r)
         == TimesTaken(s, ops, r) + multiset(Run(s, ops).queue)[r]
    decreases |ops|
  {
    if ops != [] {
      hide Step;
      hide PushedBy;
      hide TakenBy;
      StepKeepsOrder(s, ops[0]);
      StepConserves(s, ops[0], r);
      RunConserves(Step(s, ops[0]), ops[1..], r);
    }
  }

  // ----- Is the popup that comes out permitted?

  // Without application filters: over an ordinary window whatever has at least its priority; over a popup the same,
  // and the same popup again.
  lemma StackDecides(below: Stack, top: WindowData, r: Request)
    ensures Permits(Filter([], Some(below + [top])), r) <==> top.disposition.id == r.id || r.priority >= top.disposition.priority
    ensures Permits(Filter([], Some([])), r) && Permits(Filter([], None), r)
    ensures Permits(Filter([], Some(below + [WindowData(top.name, WINDOW_DISPOSITION)])), r)
            <==> r.priority >= 1 || r.id == Invalid
  {
    var s := below + [top];
    assert s[|s| - 1] == top;
    var p := below + [WindowData(top.name, WINDOW_DISPOSITION)];
    assert p[|p| - 1] == WindowData(top.name, WINDOW_DISPOSITION);
  }

  // It is, whichever is taken, when the filter treats requests of one priority alike.
  lemma PoppedPermittedWhenAlike(f: Filter, q: seq<Request>, k: nat, j: nat)
    requires FirstPermitted(f, q, k) && j < |q| && q[j].priority == q[k].priority
    requires forall a, b :: a in q && b in q && a.priority == b.priority ==> (Permits(f, a) <==> Permits(f, b))
    ensures Permits(f, q[j])
  {
    assert q[j] in q && q[k] in q;
  }

  // extract takes the first of the equal ones: that one is permitted exactly when no other of its priority
  // precedes the first permitted.
  lemma PoppedPermittedIff(f: Filter, q: seq<Request>, k: nat, j: nat)
    requires Ordered(q) && FirstPermitted(f, q, k)
    requires j < |q| && q[j].priority == q[k].priority && forall i :: 0 <= i < j ==> q[i].priority != q[k].priority
    ensures j <= k
    ensures Permits(f, q[j]) <==> forall i :: 0 <= i < k ==> q[i].priority > q[k].priority
  {
    if j < k {
      assert !Permits(f, q[j]);
    } else {
      forall i | 0 <= i < k
        ensures q[i].priority > q[k].priority
      {
        assert Before(q[i], q[k]);
      }
    }
  }

  // And it can happen: with an alarm on top, whose window has priority High, a pending alarm request lets out a volume
  // request of the same lower priority that came before it and that the filter does not permit.
  lemma UnpermittedPopupCanComeOut()
    ensures var top := WindowData(ResolveWindowName(Alarm), Disposition(2, true, Alarm));
            var f := Filter([], Some([top]));
            var q := [Request(Volume, 1, 0), Request(Alarm, 1, 1)];
            Ordered(q) && FirstPermitted(f, q, 1) && q[0].priority == q[1].priority && !Permits(f, q[0])
  {
  }
}
