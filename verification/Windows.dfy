/** The windows of an application: the stack of names with its map of built windows
    (module-apps/apps-common/WindowsStack.cpp) and the handlers of ApplicationCommon.cpp that move it. */
module Windows {
  import opened Options

  datatype PopupId =
    | Volume | PhoneModes | Brightness | Tethering | TetheringPhoneModeChangeProhibited
    | BluetoothAuthenticate | BluetoothInfo | PhoneLock | PhoneLockInput | PhoneLockInfo | PhoneLockChangeInfo
    | SimLock | SimInfo | SimNotReady | SimSwitching | AlarmActivated | AlarmDeactivated | Alarm
    | PowerOff | Reboot | BedtimeNotification | ChargingNotification | ChargingDoneNotification
    | AudioError | AppTestPopup | Invalid

  const PHONE_LOCK_WINDOW := "PhoneLockPopup"

  function ResolveWindowName(id: PopupId): string {
    match id
    case Volume => "VolumePopup"
    case PhoneModes => "PhoneModesPopup"
    case Brightness => "BrightnessPopup"
    case Tethering => "TetheringConfirmationPopup"
    case TetheringPhoneModeChangeProhibited => "TetheringPhoneModeChangeProhibitedPopup"
    case BluetoothAuthenticate => "BluetoothAuthenticatePopup"
    case BluetoothInfo => "BluetoothInfoPopup"
    case PhoneLock => PHONE_LOCK_WINDOW
    case PhoneLockInput => "PhoneLockInputPopup"
    case PhoneLockInfo => "PhoneLockInfoPopup"
    case PhoneLockChangeInfo => "PhoneLockChangeInfoPopup"
    case SimLock => "SimUnlockPopup"
    case SimInfo => "SimInfoPopup"
    case SimNotReady => "SimNotReadyPopup"
    case SimSwitching => "SimSwitchingPopup"
    case AlarmActivated => "AlarmActivatedPopup"
    case AlarmDeactivated => "AlarmDeactivatedPopup"
    case Alarm => "AlarmPopup"
    case PowerOff => "PowerOffPopup"
    case Reboot => "RebootPopup"
    case BedtimeNotification => "BedtimeNotificationPopup"
    case ChargingNotification => "ChargingNotificationPopup"
    case ChargingDoneNotification => "ChargingDoneNotificationPopup"
    case AudioError => "AudioErrorPopup"
    case AppTestPopup => "test_popup"
    case Invalid => "MainWindow"
  }

  // Priorities run from 0 (Low) to 3 (Highest).
  datatype Disposition = Disposition(priority: nat, isPopup: bool, id: PopupId)

  const WINDOW_DISPOSITION := Disposition(1, false, Invalid)

  datatype WindowData = WindowData(name: string, disposition: Disposition)

  type Stack = seq<WindowData>

  datatype State<W> = State(windows: map<string, W>, stack: Stack)

  // The factory: the names it has builders for, what they build, and the application's default window.
  datatype Config<W> = Config(registered: set<string>, build: string -> W, defaultWindow: string)

  // ----- The stack

  function IndexOf(s: Stack, name: string): (r: Option<nat>)
    ensures r.Some? ==> r.value < |s| && s[r.value].name == name && forall i :: 0 <= i < r.value ==> s[i].name != name
    ensures r.None? ==> forall i :: 0 <= i < |s| ==> s[i].name != name
  {
    if s == [] then None
    else if s[0].name == name then Some(0)
    else
      var r := IndexOf(s[1..], name);
      if r.Some? then Some(r.value + 1) else None
  }

  // pop(name): everything above the first window of that name goes
  function PopTo(s: Stack, name: string): (Stack, bool) {
    match IndexOf(s, name)
    case Some(i) => (s[..i + 1], true)
    case None => (s, false)
  }

  // drop(name): that window alone goes
  function Drop(s: Stack, name: string): (Stack, bool) {
    match IndexOf(s, name)
    case Some(i) => (s[..i] + s[i + 1..], true)
    case None => (s, false)
  }

  function WithoutPopups(s: Stack): Stack {
    if s == [] then []
    else
      var rest := WithoutPopups(s[..|s| - 1]);
      if s[|s| - 1].disposition.isPopup then rest else rest + [s[|s| - 1]]
  }

  lemma WithoutPopupsStep(s: Stack, i: nat)
    requires i < |s|
    ensures WithoutPopups(s[..i + 1]) == WithoutPopups(s[..i]) + (if s[i].disposition.isPopup then [] else [s[i]])
  {
    assert s[..i + 1][..i] == s[..i];
  }

  // One step of erasing backwards: `kept` is what stays of the part already walked over.
  lemma EraseStep(s: Stack, i: nat, kept: Stack)
    requires i < |s|
    ensures var t := s[..i + 1] + kept;
            t[i] == s[i] && t[..i] + t[i + 1..] == s[..i] + kept && t == s[..i] + ([s[i]] + kept)
  {
  }

  // ----- The handlers

  // Building a window nobody registered throws; the windows and the stack are unchanged.
  function Push<W>(cfg: Config<W>, s: State<W>, name: string, d: Disposition): State<W> {
    if name in cfg.registered then
      State(s.windows[name := cfg.build(name)], s.stack + [WindowData(name, d)])
    else s
  }

  function GetCurrentWindow<W>(cfg: Config<W>, s: State<W>): State<W> {
    if s.stack == [] then Push(cfg, s, cfg.defaultWindow, WINDOW_DISPOSITION) else s
  }

  function PushWindow<W>(cfg: Config<W>, s: State<W>, name: string, d: Disposition): State<W> {
    if name == "" && |s.stack| == 1 then s.(stack := [])
    else if PopTo(s.stack, name).1 then s.(stack := PopTo(s.stack, name).0)
    else Push(cfg, s, name, d)
  }

  // tryShowPopup, given the request it took from the queue
  function ShowPopup<W>(s: State<W>, popup: Option<PopupId>): State<W> {
    if popup == Some(SimInfo) then s.(stack := Drop(s.stack, ResolveWindowName(SimLock)).0) else s
  }

  // `ignoreCurrent` is the switch data's ignoreCurrentWindowOnStack; `popup` is the request that may be shown next.
  // The current window is asked for before and after the push; if there is none even so, building the default one threw.
  function HandleSwitchWindow<W>(cfg: Config<W>, s: State<W>, name: string, d: Disposition,
                                 ignoreCurrent: bool, popup: Option<PopupId>): State<W>
  {
    if name !in cfg.registered then s
    else
      var popped := if ignoreCurrent && s.stack != [] then s.(stack := s.stack[..|s.stack| - 1]) else s;
      var base := GetCurrentWindow(cfg, popped);
      if base.stack == [] then base
      else ShowPopup(GetCurrentWindow(cfg, PushWindow(cfg, base, name, d)), popup)
  }

  // returnToPreviousWindow: the state it leaves and the window it asks to switch to, if it asks.
  function ReturnToPreviousWindow<W>(s: State<W>): (State<W>, Option<string>) {
    if |s.stack| < 2 then (s, None)
    else
      var previous := s.stack[|s.stack| - 2].name;
      var t := PopTo(s.stack, previous).0;
      if previous != ResolveWindowName(SimInfo) then (s.(stack := t), Some(previous))
      else if |t| < 2 then (s.(stack := t), None)
      else (s.(stack := t), Some(t[|t| - 2].name))
  }

  function AbortPopup<W>(cfg: Config<W>, s: State<W>, id: PopupId): (State<W>, Option<string>) {
    var name := ResolveWindowName(id);
    if id == Tethering && IndexOf(s.stack, PHONE_LOCK_WINDOW).Some? then
      (s.(stack := Drop(s.stack, name).0), None)
    else
      var s1 := GetCurrentWindow(cfg, s);
      var (t, found) := PopTo(s1.stack, name);
      if found then ReturnToPreviousWindow(s1.(stack := t)) else (s1, None)
  }

  // The handler's own switch message, handled next.
  function Complete<W>(cfg: Config<W>, step: (State<W>, Option<string>)): State<W> {
    match step.1
    case None => step.0
    case Some(name) => HandleSwitchWindow(cfg, step.0, name, WINDOW_DISPOSITION, false, None)
  }

  function Rebuild<W>(cfg: Config<W>, s: State<W>): State<W> {
    s.(windows := map name | name in s.windows :: if name in cfg.registered then cfg.build(name) else s.windows[name])
  }

  // ----- What every run keeps

  // No window is stacked twice, every stacked window has been built, and only registered ones have.
  ghost predicate Sound<W>(cfg: Config<W>, s: State<W>) {
    && (forall i, j :: 0 <= i < j < |s.stack| ==> s.stack[i].name != s.stack[j].name)
    && (forall i :: 0 <= i < |s.stack| ==> s.stack[i].name in s.windows)
    && s.windows.Keys <= cfg.registered
  }

  datatype Op =
    | OpPushWindow(name: string, d: Disposition)
    | OpGetCurrent
    | OpSwitch(name: string, d: Disposition, ignoreCurrent: bool, popup: Option<PopupId>)
    | OpReturn
    | OpAbort(id: PopupId)
    | OpPop
    | OpPopTo(name: string)
    | OpDrop(name: string)
    | OpDropPopups
    | OpRebuild
    | OpClear

  function Step<W>(cfg: Config<W>, s: State<W>, op: Op): State<W> {
    match op
    case OpPushWindow(name, d) => PushWindow(cfg, s, name, d)
    case OpGetCurrent => GetCurrentWindow(cfg, s)
    case OpSwitch(name, d, ignoreCurrent, popup) => HandleSwitchWindow(cfg, s, name, d, ignoreCurrent, popup)
    case OpReturn => ReturnToPreviousWindow(s).0
    case OpAbort(id) => AbortPopup(cfg, s, id).0
    case OpPop => if s.stack == [] then s else s.(stack := s.stack[..|s.stack| - 1])
    case OpPopTo(name) => s.(stack := PopTo(s.stack, name).0)
    case OpDrop(name) => s.(stack := Drop(s.stack, name).0)
    case OpDropPopups => s.(stack := WithoutPopups(s.stack))
    case OpRebuild => Rebuild(cfg, s)
    case OpClear => State(map[], [])
  }

  function Run<W>(cfg: Config<W>, s: State<W>, ops: seq<Op>): State<W>
    decreases |ops|
  {
    if ops == [] then s else Run(cfg, Step(cfg, s, ops[0]), ops[1..])
  }

  lemma PushSound<W>(cfg: Config<W>, s: State<W>, name: string, d: Disposition)
    requires Sound(cfg, s) && IndexOf(s.stack, name).None?
    ensures Sound(cfg, Push(cfg, s, name, d))
  {
  }

  lemma PushWindowSound<W>(cfg: Config<W>, s: State<W>, name: string, d: Disposition)
    requires Sound(cfg, s)
    ensures Sound(cfg, PushWindow(cfg, s, name, d))
  {
    if IndexOf(s.stack, name).None? {
      PushSound(cfg, s, name, d);
    }
  }

  lemma GetCurrentSound<W>(cfg: Config<W>, s: State<W>)
    requires Sound(cfg, s)
    ensures Sound(cfg, GetCurrentWindow(cfg, s))
  {
    if s.stack == [] {
      PushSound(cfg, s, cfg.defaultWindow, WINDOW_DISPOSITION);
    }
  }

  lemma DropSound<W>(cfg: Config<W>, s: State<W>, name: string)
    requires Sound(cfg, s)
    ensures Sound(cfg, s.(stack := Drop(s.stack, name).0))
  {
  }

  lemma SwitchSound<W>(cfg: Config<W>, s: State<W>, name: string, d: Disposition,
                       ignoreCurrent: bool, popup: Option<PopupId>)
    requires Sound(cfg, s)
    ensures Sound(cfg, HandleSwitchWindow(cfg, s, name, d, ignoreCurrent, popup))
  {
    hide ResolveWindowName;
    hide Sound;
    hide PushWindow;
    hide GetCurrentWindow;
    var popped := if ignoreCurrent && s.stack != [] then s.(stack := s.stack[..|s.stack| - 1]) else s;
    if ignoreCurrent && s.stack != [] {
      PrefixSound(cfg, s, |s.stack| - 1);
    }
    GetCurrentSound(cfg, popped);
    var base := GetCurrentWindow(cfg, popped);
    PushWindowSound(cfg, base, name, d);
    var shown := PushWindow(cfg, base, name, d);
    GetCurrentSound(cfg, shown);
    DropSound(cfg, GetCurrentWindow(cfg, shown), ResolveWindowName(SimLock));
  }

  // a stands before b.
  ghost predicate Precedes(s: Stack, a: WindowData, b: WindowData) {
    exists p, q :: 0 <= p < q < |s| && s[p] == a && s[q] == b
  }

  // What is left after the popups are gone is a selection of what was there, in the same order.
  lemma {:induction false} WithoutPopupsSelects(s: Stack)
    requires forall i, j :: 0 <= i < j < |s| ==> s[i].name != s[j].name
    ensures forall i :: 0 <= i < |WithoutPopups(s)| ==> WithoutPopups(s)[i] in s && !WithoutPopups(s)[i].disposition.isPopup
    ensures forall d :: d in s && !d.disposition.isPopup ==> d in WithoutPopups(s)
    ensures forall i, j :: 0 <= i < j < |WithoutPopups(s)| ==>
              && WithoutPopups(s)[i].name != WithoutPopups(s)[j].name
              && Precedes(s, WithoutPopups(s)[i], WithoutPopups(s)[j])
    decreases |s|
  {
    if s != [] {
      var front := s[..|s| - 1];
      WithoutPopupsSelects(front);
      forall d | d in s && !d.disposition.isPopup
        ensures d in WithoutPopups(s)
      {
        assert d in front || d == s[|s| - 1];
      }
      var t := WithoutPopups(s);
      forall i, j | 0 <= i < j < |t|
        ensures Precedes(s, t[i], t[j])
      {
        if j < |WithoutPopups(front)| {
          PrecedesInLonger(s, t[i], t[j]);
        } else {
          assert t[i] in front && t[j] == s[|s| - 1];
        }
      }
    }
  }

  lemma PrecedesInLonger(s: Stack, a: WindowData, b: WindowData)
    requires s != [] && Precedes(s[..|s| - 1], a, b)
    ensures Precedes(s, a, b)
  {
    var front := s[..|s| - 1];
    var p, q :| 0 <= p < q < |front| && front[p] == a && front[q] == b;
    assert s[p] == a && s[q] == b;
  }

  lemma DropPopupsSound<W>(cfg: Config<W>, s: State<W>)
    requires Sound(cfg, s)
    ensures Sound(cfg, s.(stack := WithoutPopups(s.stack)))
  {
    WithoutPopupsSelects(s.stack);
    var t := WithoutPopups(s.stack);
    forall i | 0 <= i < |t|
      ensures t[i].name in s.windows
    {
      assert t[i] in s.stack;
    }
  }

  lemma PrefixSound<W>(cfg: Config<W>, s: State<W>, n: nat)
    requires Sound(cfg, s) && n <= |s.stack|
    ensures Sound(cfg, s.(stack := s.stack[..n]))
  {
  }

  lemma PopToSound<W>(cfg: Config<W>, s: State<W>, name: string)
    requires Sound(cfg, s)
    ensures Sound(cfg, s.(stack := PopTo(s.stack, name).0))
  {
    if IndexOf(s.stack, name).Some? {
      PrefixSound(cfg, s, IndexOf(s.stack, name).value + 1);
    }
  }

  lemma ReturnSound<W>(cfg: Config<W>, s: State<W>)
    requires Sound(cfg, s)
    ensures Sound(cfg, ReturnToPreviousWindow(s).0)
  {
    hide ResolveWindowName;
    if 2 <= |s.stack| {
      PopToSound(cfg, s, s.stack[|s.stack| - 2].name);
    }
  }

  lemma AbortSound<W>(cfg: Config<W>, s: State<W>, id: PopupId)
    requires Sound(cfg, s)
    ensures Sound(cfg, AbortPopup(cfg, s, id).0)
  {
    hide ResolveWindowName;
    hide Sound;
    var name := ResolveWindowName(id);
    DropSound(cfg, s, name);
    GetCurrentSound(cfg, s);
    var s1 := GetCurrentWindow(cfg, s);
    PopToSound(cfg, s1, name);
    ReturnSound(cfg, s1.(stack := PopTo(s1.stack, name).0));
  }

  lemma StepSound<W>(cfg: Config<W>, s: State<W>, op: Op)
    requires Sound(cfg, s)
    ensures Sound(cfg, Step(cfg, s, op))
  {
    hide ResolveWindowName;
    match op
    case OpPushWindow(name, d) => PushWindowSound(cfg, s, name, d);
    case OpGetCurrent => GetCurrentSound(cfg, s);
    case OpSwitch(name, d, ignoreCurrent, popup) => SwitchSound(cfg, s, name, d, ignoreCurrent, popup);
    case OpReturn => ReturnSound(cfg, s);
    case OpAbort(id) => AbortSound(cfg, s, id);
    case OpPop => if s.stack != [] { PrefixSound(cfg, s, |s.stack| - 1); }
    case OpPopTo(name) => PopToSound(cfg, s, name);
    case OpDrop(name) => DropSound(cfg, s, name);
    case OpDropPopups => DropPopupsSound(cfg, s);
    case OpRebuild =>
    case OpClear =>
  }

  // Every run from an empty stack keeps names distinct and every stacked window built.
  lemma {:induction false} RunSound<W>(cfg: Config<W>, s: State<W>, ops: seq<Op>)
    requires Sound(cfg, s)
    ensures Sound(cfg, Run(cfg, s, ops))
    decreases |ops|
  {
    if ops != [] {
      StepSound(cfg, s, ops[0]);
      RunSound(cfg, Step(cfg, s, ops[0]), ops[1..]);
    }
  }

  // ----- What a switch shows

  // Position k holds the first window of that name.
  ghost predicate FirstNamed(s: Stack, name: string, k: nat) {
    k < |s| && s[k].name == name && forall i :: 0 <= i < k ==> s[i].name != name
  }

  ghost predicate Unstacked(s: Stack, name: string) {
    forall i :: 0 <= i < |s| ==> s[i].name != name
  }

  lemma IndexOfFirstNamed(s: Stack, name: string, k: nat)
    requires FirstNamed(s, name, k)
    ensures IndexOf(s, name) == Some(k)
  {
    assert IndexOf(s, name).Some?;
  }

  // A stacked window is gone back to, as it was stacked; any other is built and put on top with the disposition given,
  // or nothing happens if nobody registered it. The empty name clears a single window.
  lemma PushWindowShows<W>(cfg: Config<W>, s: State<W>, name: string, d: Disposition)
    ensures var after := PushWindow(cfg, s, name, d);
            if name == "" && |s.stack| == 1 then after == State(s.windows, [])
            else
              && (forall k: nat :: FirstNamed(s.stack, name, k) ==> after == State(s.windows, s.stack[..k + 1]))
              && (Unstacked(s.stack, name) ==>
                    after == if name in cfg.registered
                             then State(s.windows[name := cfg.build(name)], s.stack + [WindowData(name, d)])
                             else s)
  {
    hide IndexOf;
    forall k: nat | FirstNamed(s.stack, name, k)
      ensures IndexOf(s.stack, name) == Some(k)
    {
      IndexOfFirstNamed(s.stack, name, k);
    }
  }

  // So for a whole switch to a name that is not empty: the window to ignore goes first, an empty stack gets the default
  // window, and then the window is gone back to or built and stacked with its disposition.
  lemma SwitchShows<W>(cfg: Config<W>, s: State<W>, name: string, d: Disposition, ignoreCurrent: bool)
    requires name in cfg.registered && name != "" && cfg.defaultWindow in cfg.registered
    ensures var kept := if ignoreCurrent && s.stack != [] then s.stack[..|s.stack| - 1] else s.stack;
            var base := if kept == [] then [WindowData(cfg.defaultWindow, WINDOW_DISPOSITION)] else kept;
            var built := if kept == [] then s.windows[cfg.defaultWindow := cfg.build(cfg.defaultWindow)] else s.windows;
            var after := HandleSwitchWindow(cfg, s, name, d, ignoreCurrent, None);
            && (forall k: nat :: FirstNamed(base, name, k) ==> after == State(built, base[..k + 1]))
            && (Unstacked(base, name) ==>
                  after == State(built[name := cfg.build(name)], base + [WindowData(name, d)]))
  {
    hide PushWindow;
    hide SwitchBase;
    hide HandleSwitchWindow;
    var base := SwitchBase(cfg, s, ignoreCurrent);
    SwitchBaseIs(cfg, s, ignoreCurrent);
    SwitchWithoutPopup(cfg, s, name, d, ignoreCurrent);
    PushWindowShows(cfg, base, name, d);
    PushWindowOnTop(cfg, base, name, d);
  }

  lemma SwitchBaseIs<W>(cfg: Config<W>, s: State<W>, ignoreCurrent: bool)
    requires cfg.defaultWindow in cfg.registered
    ensures var kept := if ignoreCurrent && s.stack != [] then s.stack[..|s.stack| - 1] else s.stack;
            SwitchBase(cfg, s, ignoreCurrent)
            == if kept == [] then State(s.windows[cfg.defaultWindow := cfg.build(cfg.defaultWindow)],
                                        [WindowData(cfg.defaultWindow, WINDOW_DISPOSITION)])
               else State(s.windows, kept)
  {
  }

  // A name nobody registered changes nothing. A SIM info popup taken from the queue drops the SIM unlock window and
  // nothing else; any other request drops nothing.
  lemma SwitchThenPopup<W>(cfg: Config<W>, s: State<W>, name: string, d: Disposition,
                           ignoreCurrent: bool, popup: Option<PopupId>)
    ensures name !in cfg.registered ==> HandleSwitchWindow(cfg, s, name, d, ignoreCurrent, popup) == s
    ensures var shown := HandleSwitchWindow(cfg, s, name, d, ignoreCurrent, None);
            var after := HandleSwitchWindow(cfg, s, name, d, ignoreCurrent, popup);
            && (name in cfg.registered && popup == Some(SimInfo) ==>
                  forall k: nat :: FirstNamed(shown.stack, "SimUnlockPopup", k) ==>
                    after == shown.(stack := shown.stack[..k] + shown.stack[k + 1..]))
            && (popup != Some(SimInfo) || Unstacked(shown.stack, "SimUnlockPopup") ==> after == shown)
  {
    var shown := HandleSwitchWindow(cfg, s, name, d, ignoreCurrent, None);
    assert ResolveWindowName(SimLock) == "SimUnlockPopup";
    hide ResolveWindowName;
    hide Drop;
    DropShows(shown.stack, "SimUnlockPopup");
    if name in cfg.registered {
      PopupComesLast(cfg, s, name, d, ignoreCurrent, popup);
    }
    hide HandleSwitchWindow;
  }

  lemma PopupComesLast<W>(cfg: Config<W>, s: State<W>, name: string, d: Disposition,
                          ignoreCurrent: bool, popup: Option<PopupId>)
    requires name in cfg.registered
    ensures HandleSwitchWindow(cfg, s, name, d, ignoreCurrent, popup)
         == ShowPopup(HandleSwitchWindow(cfg, s, name, d, ignoreCurrent, None), popup)
  {
    hide ResolveWindowName;
    hide PushWindow;
    hide GetCurrentWindow;
  }

  // Dropping takes the first window of that name and nothing else.
  lemma DropShows(s: Stack, name: string)
    ensures Unstacked(s, name) ==> Drop(s, name) == (s, false)
    ensures forall k: nat :: FirstNamed(s, name, k) ==> Drop(s, name) == (s[..k] + s[k + 1..], true)
  {
    hide IndexOf;
    forall k: nat | FirstNamed(s, name, k)
      ensures IndexOf(s, name) == Some(k)
    {
      IndexOfFirstNamed(s, name, k);
    }
  }

  // ----- Where a switch lands

  // The stack a switch works on: without the window to ignore, and never empty.
  function SwitchBase<W>(cfg: Config<W>, s: State<W>, ignoreCurrent: bool): State<W> {
    GetCurrentWindow(cfg, if ignoreCurrent && s.stack != [] then s.(stack := s.stack[..|s.stack| - 1]) else s)
  }

  // A switch to a registered window ends with it on top, unless its name is empty and just one window is stacked: then the
  // default window is all there is. Below it is a prefix of the stack there was, or, if that was used up, the default
  // window alone.
  lemma SwitchLandsOnTop<W>(cfg: Config<W>, s: State<W>, name: string, d: Disposition, ignoreCurrent: bool)
    requires name in cfg.registered && cfg.defaultWindow in cfg.registered
    ensures var shown := HandleSwitchWindow(cfg, s, name, d, ignoreCurrent, None).stack;
            var cleared := name == "" && |SwitchBase(cfg, s, ignoreCurrent).stack| == 1;
            && shown != []
            && (shown[|shown| - 1].name == name <==> !cleared || cfg.defaultWindow == "")
            && (cleared ==> shown == [WindowData(cfg.defaultWindow, WINDOW_DISPOSITION)])
            && var below := shown[..|shown| - 1];
               || below <= s.stack
               || (below == [WindowData(cfg.defaultWindow, WINDOW_DISPOSITION)]
                   && |s.stack| <= if ignoreCurrent then 1 else 0)
  {
    hide PushWindow;
    hide SwitchBase;
    hide HandleSwitchWindow;
    var base := SwitchBase(cfg, s, ignoreCurrent);
    SwitchBaseStack(cfg, s, ignoreCurrent);
    SwitchWithoutPopup(cfg, s, name, d, ignoreCurrent);
    PushWindowOnTop(cfg, base, name, d);
    var pushed := PushWindow(cfg, base, name, d).stack;
    if pushed != [] {
      BelowOnTop(pushed[..|pushed| - 1], base.stack, s.stack);
    }
  }

  lemma SwitchBaseStack<W>(cfg: Config<W>, s: State<W>, ignoreCurrent: bool)
    requires cfg.defaultWindow in cfg.registered
    ensures var base := SwitchBase(cfg, s, ignoreCurrent).stack;
            && base != []
            && (base <= s.stack || (base == [WindowData(cfg.defaultWindow, WINDOW_DISPOSITION)]
                                    && |s.stack| <= if ignoreCurrent then 1 else 0))
  {
  }

  lemma SwitchWithoutPopup<W>(cfg: Config<W>, s: State<W>, name: string, d: Disposition, ignoreCurrent: bool)
    requires name in cfg.registered && SwitchBase(cfg, s, ignoreCurrent).stack != []
    ensures HandleSwitchWindow(cfg, s, name, d, ignoreCurrent, None)
         == GetCurrentWindow(cfg, PushWindow(cfg, SwitchBase(cfg, s, ignoreCurrent), name, d))
  {
    hide GetCurrentWindow;
    hide PushWindow;
  }

  lemma BelowOnTop(below: Stack, base: Stack, s: Stack)
    requires below <= base
    ensures base <= s ==> below <= s
    ensures |base| == 1 ==> below == [] || below == base
  {
  }

  lemma PushWindowOnTop<W>(cfg: Config<W>, s: State<W>, name: string, d: Disposition)
    requires name in cfg.registered && s.stack != []
    ensures var shown := PushWindow(cfg, s, name, d).stack;
            && (shown == [] <==> name == "" && |s.stack| == 1)
            && (shown != [] ==> shown[|shown| - 1].name == name)
            && (shown != [] ==> shown[..|shown| - 1] <= s.stack)
  {
    hide IndexOf;
    var shown := PushWindow(cfg, s, name, d).stack;
    if IndexOf(s.stack, name).None? {
      assert shown != [] ==> shown[..|shown| - 1] == s.stack;
    }
  }

  // It stays there when a popup is taken from the queue at once, unless it is the SIM unlock window and the popup is
  // the SIM info one, which drops it.
  lemma SwitchStaysOnTopIff<W>(cfg: Config<W>, s: State<W>, name: string, d: Disposition,
                               ignoreCurrent: bool, popup: Option<PopupId>)
    requires Sound(cfg, s) && name in cfg.registered && name != "" && cfg.defaultWindow in cfg.registered
    ensures var final := HandleSwitchWindow(cfg, s, name, d, ignoreCurrent, popup).stack;
            (final != [] && final[|final| - 1].name == name)
            <==> !(popup == Some(SimInfo) && name == ResolveWindowName(SimLock))
  {
    hide ResolveWindowName;
    var unpopped := HandleSwitchWindow(cfg, s, name, d, ignoreCurrent, None);
    SwitchLandsOnTop(cfg, s, name, d, ignoreCurrent);
    SwitchSound(cfg, s, name, d, ignoreCurrent, None);
    assert HandleSwitchWindow(cfg, s, name, d, ignoreCurrent, popup) == ShowPopup(unpopped, popup);
    hide HandleSwitchWindow;
    DropFromTopIff(unpopped.stack, ResolveWindowName(SimLock));
  }

  // Dropping a window leaves the top where it is exactly when it is not the top.
  lemma DropFromTopIff(s: Stack, name: string)
    requires s != [] && forall i, j :: 0 <= i < j < |s| ==> s[i].name != s[j].name
    ensures var t, top := Drop(s, name).0, s[|s| - 1].name;
            (t != [] && t[|t| - 1].name == top) <==> name != top
  {
    if name == s[|s| - 1].name {
      assert IndexOf(s, name) == Some(|s| - 1);
    }
  }

  // ----- Going back

  // The nearest window below position n that is not the SIM info popup.
  ghost predicate NearestReturn(s: Stack, n: nat, k: nat) {
    && k < n <= |s| && s[k].name != ResolveWindowName(SimInfo)
    && forall i :: k < i < n ==> s[i].name == ResolveWindowName(SimInfo)
  }

  // Going back, completed by its own switch message, leaves the stack up to that window and nothing above it.
  lemma ReturnLandsOnNearest<W>(cfg: Config<W>, s: State<W>, k: nat)
    requires Sound(cfg, s) && s.stack != [] && NearestReturn(s.stack, |s.stack| - 1, k) && s.stack[k].name != ""
    ensures Complete(cfg, ReturnToPreviousWindow(s)) == s.(stack := s.stack[..k + 1])
  {
    hide ResolveWindowName;
    var n := |s.stack|;
    var previous := s.stack[n - 2].name;
    assert IndexOf(s.stack, previous) == Some(n - 2);
    var t := s.stack[..n - 1];
    if 3 <= n {
      assert s.stack[n - 3].name != s.stack[n - 2].name;
    }
    assert IndexOf(t, s.stack[k].name) == Some(k) by {
      assert t[k] == s.stack[k];
    }
    assert t[..k + 1] == s.stack[..k + 1];
  }

  // With nothing below there is nowhere to go; above the SIM info popup alone, going back stops at it.
  lemma ReturnWithNowhereToGo<W>(s: State<W>)
    ensures |s.stack| < 2 ==> ReturnToPreviousWindow(s) == (s, None)
    ensures |s.stack| == 2 && s.stack[0].name == ResolveWindowName(SimInfo) ==>
              ReturnToPreviousWindow(s) == (s.(stack := s.stack[..1]), None)
  {
    hide ResolveWindowName;
    if |s.stack| == 2 {
      assert FirstNamed(s.stack, s.stack[0].name, 0);
      IndexOfFirstNamed(s.stack, s.stack[0].name, 0);
    }
  }

  // Aborting a popup that is not stacked asks for nothing; one at the bottom stays, without what was above it.
  lemma AbortWithNowhereToGo<W>(cfg: Config<W>, s: State<W>, id: PopupId)
    requires !(id == Tethering && IndexOf(s.stack, PHONE_LOCK_WINDOW).Some?) && s.stack != []
    ensures Unstacked(s.stack, ResolveWindowName(id)) ==> AbortPopup(cfg, s, id) == (s, None)
    ensures s.stack[0].name == ResolveWindowName(id) ==> AbortPopup(cfg, s, id) == (s.(stack := s.stack[..1]), None)
  {
    hide ResolveWindowName;
    hide IndexOf;
    if s.stack[0].name == ResolveWindowName(id) {
      IndexOfFirstNamed(s.stack, ResolveWindowName(id), 0);
      ReturnWithNowhereToGo(s.(stack := s.stack[..1]));
    }
  }

  // Aborting a popup, completed the same way, removes it and everything above it.
  lemma AbortRemovesPopupAndAbove<W>(cfg: Config<W>, s: State<W>, id: PopupId, i: nat, k: nat)
    requires Sound(cfg, s) && IndexOf(s.stack, ResolveWindowName(id)) == Some(i)
    requires !(id == Tethering && IndexOf(s.stack, PHONE_LOCK_WINDOW).Some?)
    requires NearestReturn(s.stack, i, k) && s.stack[k].name != ""
    ensures Complete(cfg, AbortPopup(cfg, s, id)) == s.(stack := s.stack[..k + 1])
    ensures forall j :: 0 <= j <= k ==> s.stack[j].name != ResolveWindowName(id)
  {
    hide ResolveWindowName;
    hide Complete;
    hide ReturnToPreviousWindow;
    hide IndexOf;
    var t := s.(stack := s.stack[..i + 1]);
    PrefixSound(cfg, s, i + 1);
    hide Sound;
    assert NearestReturn(t.stack, i, k);
    assert AbortPopup(cfg, s, id) == ReturnToPreviousWindow(t);
    ReturnLandsOnNearest(cfg, t, k);
    assert t.stack[..k + 1] == s.stack[..k + 1];
  }

  // On a locked phone, aborting the tethering popup takes that popup and nothing else, so the lock stays.
  lemma TetheringAbortKeepsLock<W>(cfg: Config<W>, s: State<W>)
    requires Sound(cfg, s) && IndexOf(s.stack, PHONE_LOCK_WINDOW).Some?
    ensures var t := Complete(cfg, AbortPopup(cfg, s, Tethering)).stack;
            && IndexOf(t, PHONE_LOCK_WINDOW).Some?
            && IndexOf(t, ResolveWindowName(Tethering)).None?
            && forall d :: d in s.stack && d.name != ResolveWindowName(Tethering) ==> d in t
  {
    var name := ResolveWindowName(Tethering);
    var t := Drop(s.stack, name).0;
    forall d | d in s.stack && d.name != name
      ensures d in t
    {
      var j :| 0 <= j < |s.stack| && s.stack[j] == d;
      if IndexOf(s.stack, name).Some? {
        var i := IndexOf(s.stack, name).value;
        assert if j < i then t[j] == d else t[j - 1] == d;
      }
    }
    assert s.stack[IndexOf(s.stack, PHONE_LOCK_WINDOW).value] in t;
  }

  lemma TetheringAbortDropsOne<W>(cfg: Config<W>, s: State<W>)
    requires IndexOf(s.stack, PHONE_LOCK_WINDOW).Some?
    ensures var after := Complete(cfg, AbortPopup(cfg, s, Tethering));
            var name := ResolveWindowName(Tethering);
            && (Unstacked(s.stack, name) ==> after == s)
            && forall k: nat :: FirstNamed(s.stack, name, k) ==> after == s.(stack := s.stack[..k] + s.stack[k + 1..])
  {
    hide ResolveWindowName;
    hide Drop;
    hide IndexOf;
    DropShows(s.stack, ResolveWindowName(Tethering));
  }
}
