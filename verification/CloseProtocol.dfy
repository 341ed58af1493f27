/** How an application closes (ApplicationCommon.cpp): a close request is confirmed at once, or, while callbacks wait
    that must be answered first, later, when the last of them has been (CallbackStorage.cpp). */
module CloseProtocol {
  import opened CallbackStorage

  datatype AppState =
    | DEACTIVATED | INITIALIZING | ACTIVATING | ACTIVE_FORGROUND | ACTIVE_BACKGROUND | FINALIZING_CLOSE | DEACTIVATING

  // ----- The application

  datatype Message =
    | SwitchLaunch(forThis: bool)
    | SwitchOnAction
    | FocusLost
    | Close(onClose: seq<Effect>)
    | Response(id: nat, isQuery: bool, onExecute: seq<Effect>, executed: bool)
    | Refresh(hasWindow: bool)
    | Work(effects: seq<Effect>)

  datatype Output = ConfirmSwitch | ConfirmClose | FinalizingClose | Draw

  datatype App = App(state: AppState, entries: seq<Entry>, registrations: nat)

  function Apply(app: App, effects: seq<Effect>): App
    decreases |effects|
  {
    if effects == [] then app
    else
      var (entries, registrations) := After(app.entries, app.registrations, effects[0]);
      Apply(app.(entries := entries, registrations := registrations), effects[1..])
  }

  predicate CanGoForeground(s: AppState) {
    s == ACTIVATING || s == INITIALIZING || s == ACTIVE_BACKGROUND
  }

  ghost function ConfirmIfUnblocked(app: App): (App, seq<Output>) {
    if app.state == FINALIZING_CLOSE && !Blocked(app.entries) then
      (app.(state := DEACTIVATING), [ConfirmClose])
    else (app, [])
  }

  ghost function HandleAppClose(app: App, onClose: seq<Effect>): (App, seq<Output>) {
    var closing := Apply(app.(state := DEACTIVATING), onClose);
    if Blocked(closing.entries) then (closing.(state := FINALIZING_CLOSE), [FinalizingClose])
    else (closing, [ConfirmClose])
  }

  // The check for a finished close comes only after a callback that asks for a refresh.
  ghost function HandleAsyncResponse(app: App, id: nat, isQuery: bool, onExecute: seq<Effect>, executed: bool)
    : (App, seq<Output>)
  {
    var (entries, callback) := GetCallback(app.entries, id, isQuery);
    var taken := app.(entries := entries);
    if callback.NullCallback? then (taken, [])
    else if executed then ConfirmIfUnblocked(Apply(taken, onExecute))
    else (Apply(taken, onExecute), [])
  }

  ghost function Step(app: App, m: Message): (App, seq<Output>) {
    match m
    case SwitchLaunch(forThis) =>
      if CanGoForeground(app.state) && forThis then (app.(state := ACTIVE_FORGROUND), [ConfirmSwitch]) else (app, [])
    case SwitchOnAction =>
      if CanGoForeground(app.state) then (app.(state := ACTIVE_FORGROUND), [ConfirmSwitch]) else (app, [])
    case FocusLost =>
      if app.state == ACTIVE_FORGROUND then (app.(state := ACTIVE_BACKGROUND), [ConfirmSwitch]) else (app, [])
    case Close(onClose) => HandleAppClose(app, onClose)
    case Response(id, isQuery, onExecute, executed) => HandleAsyncResponse(app, id, isQuery, onExecute, executed)
    case Refresh(hasWindow) => (app, if hasWindow && app.state == ACTIVE_FORGROUND then [Draw] else [])
    case Work(effects) => (Apply(app, effects), [])
  }

  // The handlers as methods of the application. `outbox` is what it has sent.
  class Application {
    var state: AppState
    const callbackStorage: Storage
    var outbox: seq<Output>

    ghost function View(): App
      reads this, callbackStorage
    {
      App(state, callbackStorage.entries, callbackStorage.registrations)
    }

    constructor (startInBackground: bool)
      ensures fresh(callbackStorage) && outbox == []
      ensures View() == App(if startInBackground then ACTIVE_BACKGROUND else INITIALIZING, [], 0)
    {
      state := if startInBackground then ACTIVE_BACKGROUND else INITIALIZING;
      callbackStorage := new Storage();
      outbox := [];
    }

    method RunEffects(effects: seq<Effect>)
      modifies callbackStorage
      ensures View() == Apply(old(View()), effects)
    {
      for i := 0 to |effects|
        invariant Apply(View(), effects[i..]) == Apply(old(View()), effects)
      {
        assert effects[i..][1..] == effects[i + 1..];
        match effects[i]
        case Register(id, receiver, hasFunction, blocking) =>
          callbackStorage.RegisterCallback(id, receiver, hasFunction, blocking);
        case Cancel(receiver) => callbackStorage.RemoveAll(receiver);
      }
    }

    method HandleAppClose(onClose: seq<Effect>)
      modifies this, callbackStorage
      ensures View() == Step(old(View()), Close(onClose)).0
      ensures outbox == old(outbox) + Step(old(View()), Close(onClose)).1
    {
      state := DEACTIVATING;
      RunEffects(onClose);
      var blocked := callbackStorage.CheckBlockingCloseRequests();
      if blocked {
        state := FINALIZING_CLOSE;
        outbox := outbox + [FinalizingClose];
        return;
      }
      ApplyKeepsState(old(View()).(state := DEACTIVATING), onClose);
      outbox := outbox + [ConfirmClose];
    }

    method CheckBlockingRequests()
      modifies this
      ensures View() == ConfirmIfUnblocked(old(View())).0
      ensures outbox == old(outbox) + ConfirmIfUnblocked(old(View())).1
    {
      var blocked := callbackStorage.CheckBlockingCloseRequests();
      if state == FINALIZING_CLOSE && !blocked {
        state := DEACTIVATING;
        outbox := outbox + [ConfirmClose];
      }
    }

    // What the callback does, and what it returns, are the application's; the null callback does nothing.
    method HandleAsyncResponse(id: nat, isQuery: bool, onExecute: seq<Effect>, executed: bool)
      modifies this, callbackStorage
      ensures View() == Step(old(View()), Response(id, isQuery, onExecute, executed)).0
      ensures outbox == old(outbox) + Step(old(View()), Response(id, isQuery, onExecute, executed)).1
    {
      var command := callbackStorage.Retrieve(id, isQuery);
      if !command.NullCallback? {
        RunEffects(onExecute);
        if executed {
          CheckBlockingRequests();
        }
      }
    }

    method HandleApplicationSwitchLaunch(forThis: bool)
      modifies this
      ensures View() == Step(old(View()), SwitchLaunch(forThis)).0
      ensures outbox == old(outbox) + Step(old(View()), SwitchLaunch(forThis)).1
    {
      if state == ACTIVATING || state == INITIALIZING || state == ACTIVE_BACKGROUND {
        if forThis {
          state := ACTIVE_FORGROUND;
          outbox := outbox + [ConfirmSwitch];
        }
      }
    }

    method HandleApplicationSwitchOnAction()
      modifies this
      ensures View() == Step(old(View()), SwitchOnAction).0
      ensures outbox == old(outbox) + Step(old(View()), SwitchOnAction).1
    {
      if state == ACTIVATING || state == INITIALIZING || state == ACTIVE_BACKGROUND {
        state := ACTIVE_FORGROUND;
        outbox := outbox + [ConfirmSwitch];
      }
    }

    method HandleAppFocusLost()
      modifies this
      ensures View() == Step(old(View()), FocusLost).0
      ensures outbox == old(outbox) + Step(old(View()), FocusLost).1
    {
      if state == ACTIVE_FORGROUND {
        state := ACTIVE_BACKGROUND;
        outbox := outbox + [ConfirmSwitch];
      }
    }

    method Render(hasWindow: bool)
      modifies this`outbox
      ensures outbox == old(outbox) + Step(View(), Refresh(hasWindow)).1
    {
      if hasWindow && state == ACTIVE_FORGROUND {
        outbox := outbox + [Draw];
      }
    }
  }

  lemma {:induction false} ApplyKeepsState(app: App, effects: seq<Effect>)
    ensures Apply(app, effects).state == app.state
    decreases |effects|
  {
    if effects != [] {
      var (entries, registrations) := After(app.entries, app.registrations, effects[0]);
      ApplyKeepsState(app.(entries := entries, registrations := registrations), effects[1..]);
    }
  }

  // ----- What every message does

  // Effects take their turn.
  lemma {:induction false} EffectsInTurn(app: App, a: seq<Effect>, b: seq<Effect>)
    ensures Apply(app, a + b) == Apply(Apply(app, a), b)
    decreases |a|
  {
    if a == [] {
      assert a + b == b;
    } else {
      assert (a + b)[1..] == a[1..] + b;
      var (entries, registrations) := After(app.entries, app.registrations, a[0]);
      EffectsInTurn(app.(entries := entries, registrations := registrations), a[1..], b);
    }
  }

  // Registering leaves the callback waiting; cancelling leaves none of that receiver and all others.
  lemma OneEffect(app: App, effect: Effect)
    ensures var after := Apply(app, [effect]);
            && after.state == app.state
            && (effect.Register? ==>
                  && after.registrations == app.registrations + 1
                  && after.entries == app.entries + [Entry(effect.id, effect.receiver, effect.hasFunction, effect.blocking,
                                                           app.registrations)])
            && (effect.Cancel? ==>
                  && after.registrations == app.registrations
                  && forall e :: e in after.entries <==> e in app.entries && e.receiver != effect.receiver)
  {
    assert [effect][1..] == [];
  }

  // From every state a request to close is answered at once by exactly one message: the confirmation, if no callback
  // that must be answered first is waiting after the windows were closed; otherwise that closing is not finished.
  lemma CloseIsAnswered(app: App, onClose: seq<Effect>)
    ensures var (after, sent) := Step(app, Close(onClose));
            && after.entries == Apply(app, onClose).entries
            && (if exists i :: 0 <= i < |after.entries| && after.entries[i].blocking
                then sent == [FinalizingClose] && after.state == FINALIZING_CLOSE
                else sent == [ConfirmClose] && after.state == DEACTIVATING)
  {
    ApplyKeepsState(app.(state := DEACTIVATING), onClose);
    ApplyIgnoresState(app, DEACTIVATING, onClose);
  }

  lemma {:induction false} ApplyIgnoresState(app: App, state: AppState, effects: seq<Effect>)
    ensures Apply(app.(state := state), effects).entries == Apply(app, effects).entries
    decreases |effects|
  {
    if effects != [] {
      var (entries, registrations) := After(app.entries, app.registrations, effects[0]);
      ApplyIgnoresState(app.(entries := entries, registrations := registrations), state, effects[1..]);
    }
  }

  // A response does what its callback does, and confirms nothing but a waiting close.
  lemma ResponseRunsCallback(app: App, id: nat, isQuery: bool, onExecute: seq<Effect>, executed: bool)
    ensures var (rest, callback) := GetCallback(app.entries, id, isQuery);
            var (after, sent) := Step(app, Response(id, isQuery, onExecute, executed));
            && after.entries == (if callback.NullCallback? then rest
                                 else Apply(app.(entries := rest), onExecute).entries)
            && (if app.state == FINALIZING_CLOSE && executed && !callback.NullCallback? && !Blocked(after.entries)
                then after.state == DEACTIVATING && sent == [ConfirmClose]
                else after.state == app.state && sent == [])
  {
    ApplyKeepsState(app.(entries := GetCallback(app.entries, id, isQuery).0), onExecute);
  }

  // Starting or in the background, an application named comes to the foreground and says so; in the foreground it draws,
  // and goes to the background and says so when it loses the focus. In any other state these messages do nothing.
  lemma SwitchesAreConfirmed(app: App)
    ensures var ready := app.state == INITIALIZING || app.state == ACTIVATING || app.state == ACTIVE_BACKGROUND;
            var shown := (app.(state := ACTIVE_FORGROUND), [ConfirmSwitch]);
            && Step(app, SwitchLaunch(true)) == (if ready then shown else (app, []))
            && Step(app, SwitchOnAction) == (if ready then shown else (app, []))
            && Step(app, SwitchLaunch(false)) == (app, [])
            && (app.state != ACTIVE_FORGROUND ==> Step(app, FocusLost) == (app, []))
    ensures app.state == ACTIVE_FORGROUND ==>
              && Step(app, FocusLost) == (app.(state := ACTIVE_BACKGROUND), [ConfirmSwitch])
              && Step(Step(app, FocusLost).0, SwitchOnAction) == (app, [ConfirmSwitch])
    ensures Step(app, Refresh(true)) == (app, if app.state == ACTIVE_FORGROUND then [Draw] else [])
    ensures Step(app, Refresh(false)) == (app, [])
  {
  }

  // ----- Safety of every run

  ghost predicate Closing(s: AppState) { s == FINALIZING_CLOSE || s == DEACTIVATING }

  // An observer's account: requests to close received, confirmations sent, and whether anything was drawn or
  // brought to the foreground since the first request.
  datatype Account = Account(app: App, requests: nat, confirms: nat, activeAfterRequest: bool)

  ghost function Observe(a: Account, m: Message): Account {
    var (app, outputs) := Step(a.app, m);
    Account(app,
            if m.Close? then a.requests + 1 else a.requests,
            if ConfirmClose in outputs then a.confirms + 1 else a.confirms,
            a.activeAfterRequest || (0 < a.requests && (Draw in outputs || app.state == ACTIVE_FORGROUND)))
  }

  ghost function ObserveAll(a: Account, ms: seq<Message>): Account
    decreases |ms|
  {
    if ms == [] then a else ObserveAll(Observe(a, ms[0]), ms[1..])
  }

  // A confirmation is never sent while a callback that must be answered is pending, from whatever state.
  lemma ConfirmedOnlyUnblocked(app: App, m: Message)
    ensures ConfirmClose in Step(app, m).1 ==>
              !Blocked(Step(app, m).0.entries) && Step(app, m).0.state == DEACTIVATING && |Step(app, m).1| == 1
  {
    match m
    case Close(onClose) => ApplyKeepsState(app.(state := DEACTIVATING), onClose);
    case Response(id, isQuery, onExecute, executed) =>
    case _ =>
  }

  ghost predicate CloseInvariant(a: Account) {
    && a.confirms + (if a.app.state == FINALIZING_CLOSE then 1 else 0) <= a.requests
    && (0 < a.requests ==> Closing(a.app.state))
    && !a.activeAfterRequest
  }

  lemma StepKeepsCloseInvariant(a: Account, m: Message)
    requires CloseInvariant(a)
    ensures CloseInvariant(Observe(a, m))
  {
    match m
    case Close(onClose) => ApplyKeepsState(a.app.(state := DEACTIVATING), onClose);
    case Response(id, isQuery, onExecute, executed) =>
      ApplyKeepsState(a.app.(entries := GetCallback(a.app.entries, id, isQuery).0), onExecute);
    case Work(effects) => ApplyKeepsState(a.app, effects);
    case _ =>
  }

  // Every run: no more confirmations than requests, counting one still owed while finalizing; and once a request has
  // come, the application is never in the foreground again and does not render.
  lemma {:induction false} RunKeepsCloseInvariant(a: Account, ms: seq<Message>)
    requires CloseInvariant(a)
    ensures CloseInvariant(ObserveAll(a, ms))
    decreases |ms|
  {
    if ms != [] {
      StepKeepsCloseInvariant(a, ms[0]);
      RunKeepsCloseInvariant(Observe(a, ms[0]), ms[1..]);
    }
  }

  // ----- There is no promise that a close is ever confirmed

  // The message answers a pending callback, which runs, asks for a refresh and leaves nothing that must be answered.
  ghost predicate Answers(app: App, m: Message) {
    && m.Response? && m.executed
    && var (entries, callback) := GetCallback(app.entries, m.id, m.isQuery);
       !callback.NullCallback? && !Blocked(Apply(app.(entries := entries), m.onExecute).entries)
  }

  // A finalizing application confirms at exactly these messages: a repeated request that finds nothing blocked, or an
  // answer.
  lemma FinalizingConfirmsIff(app: App, m: Message)
    requires app.state == FINALIZING_CLOSE
    ensures ConfirmClose in Step(app, m).1 <==>
            Answers(app, m) || (m.Close? && !Blocked(Apply(app.(state := DEACTIVATING), m.onClose).entries))
  {
    if m.Response? {
      ApplyKeepsState(app.(entries := GetCallback(app.entries, m.id, m.isQuery).0), m.onExecute);
    }
  }

  ghost predicate AnsweredIn(a: Account, ms: seq<Message>, i: nat) {
    i < |ms| && Answers(ObserveAll(a, ms[..i]).app, ms[i])
  }

  lemma FinalizingStep(a: Account, m: Message)
    requires a.app.state == FINALIZING_CLOSE && !m.Close?
    ensures Observe(a, m).confirms == if Answers(a.app, m) then a.confirms + 1 else a.confirms
    ensures !Answers(a.app, m) ==> Observe(a, m).app.state == FINALIZING_CLOSE
  {
    FinalizingConfirmsIff(a.app, m);
    if m.Response? {
      ApplyKeepsState(a.app.(entries := GetCallback(a.app.entries, m.id, m.isQuery).0), m.onExecute);
    } else if m.Work? {
      ApplyKeepsState(a.app, m.effects);
    }
  }

  lemma {:induction false} ConfirmsNeverDecrease(a: Account, ms: seq<Message>)
    ensures a.confirms <= ObserveAll(a, ms).confirms
    decreases |ms|
  {
    if ms != [] {
      ConfirmsNeverDecrease(Observe(a, ms[0]), ms[1..]);
    }
  }

  lemma AnsweredLater(a: Account, ms: seq<Message>, i: nat)
    requires ms != []
    ensures AnsweredIn(Observe(a, ms[0]), ms[1..], i) <==> AnsweredIn(a, ms, i + 1)
  {
    if i < |ms| - 1 {
      assert ms[..i + 1][0] == ms[0] && ms[..i + 1][1..] == ms[1..][..i];
    }
  }

  lemma AnsweredLaterAll(a: Account, ms: seq<Message>)
    requires ms != [] && !AnsweredIn(a, ms, 0)
    ensures (exists i :: AnsweredIn(a, ms, i)) <==> (exists i :: AnsweredIn(Observe(a, ms[0]), ms[1..], i))
  {
    hide AnsweredIn;
    if i: nat :| AnsweredIn(a, ms, i) {
      AnsweredLater(a, ms, i - 1);
    }
    if i: nat :| AnsweredIn(Observe(a, ms[0]), ms[1..], i) {
      AnsweredLater(a, ms, i);
    }
  }

  // Over every run without a further request, a waiting close is confirmed if and only if some message answers, in the
  // state reached before it. While none does, the application goes on waiting.
  lemma {:induction false} WaitingCloseConfirmedIff(a: Account, ms: seq<Message>)
    requires a.app.state == FINALIZING_CLOSE
    requires forall i :: 0 <= i < |ms| ==> !ms[i].Close?
    ensures ObserveAll(a, ms).confirms > a.confirms <==> exists i :: AnsweredIn(a, ms, i)
    ensures (forall i :: !AnsweredIn(a, ms, i)) ==> ObserveAll(a, ms).app.state == FINALIZING_CLOSE
    decreases |ms|
  {
    hide Observe;
    hide Answers;
    if ms != [] {
      var next, rest := Observe(a, ms[0]), ms[1..];
      FinalizingStep(a, ms[0]);
      assert AnsweredIn(a, ms, 0) <==> Answers(a.app, ms[0]) by { assert ms[..0] == []; }
      if Answers(a.app, ms[0]) {
        ConfirmsNeverDecrease(next, rest);
      } else {
        WaitingCloseConfirmedIff(next, rest);
        AnsweredLaterAll(a, ms);
      }
    }
  }

  // The message runs no callback that asks for a refresh: it is no response, or nobody waits for its id, or it is false.
  ghost predicate Idle(app: App, m: Message) {
    m.Response? && m.executed ==> forall e :: e in app.entries ==> e.id != m.id
  }

  // So, whatever is still pending, the wait goes on while all messages are idle.
  lemma StrandedForever(a: Account, ms: seq<Message>)
    requires a.app.state == FINALIZING_CLOSE
    requires forall i :: 0 <= i < |ms| ==> !ms[i].Close? && Idle(ObserveAll(a, ms[..i]).app, ms[i])
    ensures ObserveAll(a, ms).app.state == FINALIZING_CLOSE && ObserveAll(a, ms).confirms == a.confirms
  {
    hide ObserveAll;
    hide WithoutId;
    hide Apply;
    forall i: nat
      ensures !AnsweredIn(a, ms, i)
    {
      if i < |ms| && ms[i].Response? {
        ResponseTakesItsEntries(ObserveAll(a, ms[..i]).app.entries, ms[i].id, ms[i].isQuery);
      }
    }
    ConfirmsNeverDecrease(a, ms);
    WaitingCloseConfirmedIff(a, ms);
  }

  ghost predicate RegistersNothing(effects: seq<Effect>) {
    forall i :: 0 <= i < |effects| ==> effects[i].Cancel?
  }

  lemma {:induction false} NothingStaysNothing(app: App, effects: seq<Effect>)
    requires app.entries == [] && RegistersNothing(effects)
    ensures Apply(app, effects) == app
    decreases |effects|
  {
    if effects != [] {
      assert app.(entries := WithoutReceiver(app.entries, effects[0].receiver)) == app;
      NothingStaysNothing(app, effects[1..]);
    }
  }

  // With nothing pending, only a further request or new registrations can end it.
  lemma {:induction false} NothingPendingStrands(a: Account, ms: seq<Message>)
    requires a.app.state == FINALIZING_CLOSE && a.app.entries == []
    requires forall i :: 0 <= i < |ms| ==> !ms[i].Close? && (ms[i].Work? ==> RegistersNothing(ms[i].effects))
    ensures ObserveAll(a, ms).app == a.app && ObserveAll(a, ms).confirms == a.confirms
    decreases |ms|
  {
    if ms != [] {
      if ms[0].Work? {
        NothingStaysNothing(a.app, ms[0].effects);
      }
      NothingPendingStrands(Observe(a, ms[0]), ms[1..]);
    }
  }

  // And a close gets there: one waiting callback, a close request, and the receiver cancelling.
  lemma StrandedStateIsReachable()
    ensures var start := Account(App(ACTIVE_FORGROUND, [], 0), 0, 0, false);
            var ms := [Work([Register(7, 1, true, true)]), Close([]), Work([Cancel(1)])];
            CloseInvariant(start) && ObserveAll(start, ms) == Account(App(FINALIZING_CLOSE, [], 1), 1, 0, false)
  {
    var start := Account(App(ACTIVE_FORGROUND, [], 0), 0, 0, false);
    var ms := [Work([Register(7, 1, true, true)]), Close([]), Work([Cancel(1)])];
    var e := Entry(7, 1, true, true, 0);
    assert ms[1..] == [Close([]), Work([Cancel(1)])] && ms[1..][1..] == [Work([Cancel(1)])];
    var a1 := Account(App(ACTIVE_FORGROUND, [e], 1), 0, 0, false);
    var a2 := Account(App(FINALIZING_CLOSE, [e], 1), 1, 0, false);
    assert Observe(start, ms[0]) == a1;
    assert [e][0].blocking;
    assert Observe(a1, ms[1]) == a2;
    assert WithoutReceiver([e], 1) == [];
    assert Observe(a2, ms[2]) == Account(App(FINALIZING_CLOSE, [], 1), 1, 0, false);
    assert ObserveAll(a2, [ms[2]]) == Observe(a2, ms[2]);
  }
}
