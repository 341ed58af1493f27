/** The same as objects: app::WindowsStack, and the part of app::ApplicationCommon that drives it. */
module WindowsStackObjects {
  import opened Options
  import opened Basics
  import opened Windows

  class WindowsStack<W> {
    var windows: map<string, W>
    var stack: seq<WindowData>

    ghost function View(): State<W>
      reads this
    {
      State(windows, stack)
    }

    constructor ()
      ensures View() == State(map[], [])
    {
      windows, stack := map[], [];
    }

    method Push(name: string, window: W, disposition: Disposition)
      modifies this
      ensures View() == State(old(windows)[name := window], old(stack) + [WindowData(name, disposition)])
    {
      windows := windows[name := window];
      stack := stack + [WindowData(name, disposition)];
    }

    // The window `depth` places from the top.
    method Get(depth: nat) returns (data: Option<WindowData>)
      ensures data == if depth < |stack| then Some(stack[|stack| - 1 - depth]) else None
    {
      data := if depth >= |stack| then None else Some(stack[|stack| - (depth + 1)]);
    }

    method FindInStack(window: string) returns (at: Option<nat>)
      ensures at == IndexOf(stack, window)
    {
      for i := 0 to |stack|
        invariant forall k :: 0 <= k < i ==> stack[k].name != window
      {
        if stack[i].name == window {
          return Some(i);
        }
      }
      return None;
    }

    method Pop() returns (popped: bool)
      modifies this`stack
      ensures popped == (old(stack) != [])
      ensures stack == if popped then old(stack)[..|old(stack)| - 1] else old(stack)
    {
      popped := stack != [];
      if popped {
        stack := stack[..|stack| - 1];
      }
    }

    method PopTo(window: string) returns (found: bool)
      modifies this`stack
      ensures (stack, found) == Windows.PopTo(old(stack), window)
    {
      var at := FindInStack(window);
      found := at.Some?;
      if found {
        stack := stack[..at.value + 1];
      }
    }

    method PopLastWindow() returns (popped: bool)
      modifies this`stack
      ensures popped == (|old(stack)| == 1)
      ensures stack == if popped then [] else old(stack)
    {
      popped := |stack| == 1;
      if popped {
        stack := [];
      }
    }

    method Drop(window: string) returns (found: bool)
      modifies this`stack
      ensures (stack, found) == Windows.Drop(old(stack), window)
    {
      var at := FindInStack(window);
      found := at.Some?;
      if found {
        stack := stack[..at.value] + stack[at.value + 1..];
      }
    }

    // Erasing while walking backwards misses nothing: what moves into the gap has been looked at already.
    method DropPendingPopups()
      modifies this`stack
      ensures stack == WithoutPopups(old(stack))
    {
      ghost var before := stack;
      ghost var kept: seq<WindowData> := [];
      assert before[..|before|] == before && WithoutPopups([]) == [];
      hide WithoutPopups;
      var i := |stack|;
      while i != 0
        invariant 0 <= i <= |before|
        invariant stack == before[..i] + kept
        invariant WithoutPopups(before) == WithoutPopups(before[..i]) + kept
      {
        i := i - 1;
        EraseStep(before, i, kept);
        WithoutPopupsStep(before, i);
        Regroup(WithoutPopups(before[..i]), [before[i]], kept);
        if stack[i].disposition.isPopup {
          stack := stack[..i] + stack[i + 1..];
        } else {
          kept := [before[i]] + kept;
        }
      }
    }

    // A missing builder throws, wherever in the map it is met; in every run all are there (Windows.Sound).
    method RebuildWindows(cfg: Config<W>) returns (done: bool, threw: bool)
      modifies this`windows
      ensures threw <==> !(old(windows).Keys <= cfg.registered)
      ensures !threw ==> done == (old(windows) != map[]) && View() == Rebuild(cfg, old(View()))
      ensures windows.Keys == old(windows).Keys
      ensures !threw ==> forall name :: name in windows ==> windows[name] == cfg.build(name)
      ensures forall name :: name in windows ==>
                windows[name] == old(windows)[name] || (name in cfg.registered && windows[name] == cfg.build(name))
    {
      done, threw := windows != map[], false;
      var todo := windows.Keys;
      while todo != {}
        invariant todo <= windows.Keys == old(windows).Keys
        invariant forall name :: name in windows ==>
                    if name in todo then windows[name] == old(windows)[name]
                    else name in cfg.registered && windows[name] == cfg.build(name)
      {
        var name :| name in todo;
        if name !in cfg.registered {
          return done, true;
        }
        windows := windows[name := cfg.build(name)];
        todo := todo - {name};
      }
    }

    method Clear()
      modifies this
      ensures View() == State(map[], [])
    {
      stack := [];
      windows := map[];
    }
  }

  class ApplicationWindows<W> {
    const cfg: Config<W>
    const windowsStack: WindowsStack<W>

    constructor (cfg: Config<W>)
      ensures this.cfg == cfg && fresh(windowsStack) && windowsStack.View() == State(map[], [])
    {
      this.cfg := cfg;
      windowsStack := new WindowsStack<W>();
    }

    method GetCurrentWindow()
      modifies windowsStack
      ensures windowsStack.View() == Windows.GetCurrentWindow(cfg, old(windowsStack.View()))
    {
      if windowsStack.stack == [] && cfg.defaultWindow in cfg.registered {
        windowsStack.Push(cfg.defaultWindow, cfg.build(cfg.defaultWindow), WINDOW_DISPOSITION);
      }
    }

    method PushWindow(newWindow: string, d: Disposition)
      modifies windowsStack
      ensures windowsStack.View() == Windows.PushWindow(cfg, old(windowsStack.View()), newWindow, d)
    {
      if newWindow == "" {
        var cleared := windowsStack.PopLastWindow();
        if cleared {
          return;
        }
      }
      var back := windowsStack.PopTo(newWindow);
      if back {
        return;
      }
      if newWindow in cfg.registered {
        windowsStack.Push(newWindow, cfg.build(newWindow), d);
      }
    }

    method HandleSwitchWindow(windowName: string, d: Disposition, ignoreCurrent: bool, popup: Option<PopupId>)
      modifies windowsStack
      ensures windowsStack.View()
           == Windows.HandleSwitchWindow(cfg, old(windowsStack.View()), windowName, d, ignoreCurrent, popup)
    {
      if windowName !in cfg.registered {
        return;
      }
      if ignoreCurrent {
        var _ := windowsStack.Pop();
      }
      GetCurrentWindow();
      if windowsStack.stack == [] {
        return;
      }
      PushWindow(windowName, d);
      GetCurrentWindow();
      if popup == Some(SimInfo) {
        var _ := windowsStack.Drop(ResolveWindowName(SimLock));
      }
    }

    method ReturnToPreviousWindow() returns (message: Option<string>)
      modifies windowsStack
      ensures (windowsStack.View(), message) == Windows.ReturnToPreviousWindow(old(windowsStack.View()))
    {
      hide ResolveWindowName;
      var window := windowsStack.Get(1);
      if window.None? {
        return None;
      }
      var _ := windowsStack.PopTo(window.value.name);
      if window.value.name == ResolveWindowName(SimInfo) {
        window := windowsStack.Get(1);
        if window.None? {
          return None;
        }
      }
      return Some(window.value.name);
    }

    method AbortPopup(id: PopupId) returns (message: Option<string>)
      modifies windowsStack
      ensures (windowsStack.View(), message) == Windows.AbortPopup(cfg, old(windowsStack.View()), id)
    {
      hide ResolveWindowName;
      var popupName := ResolveWindowName(id);
      var locked := windowsStack.FindInStack(PHONE_LOCK_WINDOW);
      if id == Tethering && locked.Some? {
        var _ := windowsStack.Drop(popupName);
        return None;
      }
      GetCurrentWindow();
      var found := windowsStack.PopTo(popupName);
      if !found {
        return None;
      }
      message := ReturnToPreviousWindow();
    }
  }
}
