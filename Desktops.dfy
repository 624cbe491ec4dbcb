/** The desktop routines the dispatched actions run, over an abstract model of
    the virtual-desktop library: an ordered list of desktops that `Create`
    extends at the end, the shown desktop, the foreground window (0 when no
    window has focus), the set of pinned windows and the desktop each moved
    window was placed on. Every state-changing library call is also recorded,
    in order, in `calls`. */
module Desktops {
  import opened Hotkeys

  /** A state-changing call into the virtual-desktop library. */
  datatype Call =
    | CreateDesktop
    | SwitchDesktop(desktop: nat)
    | MoveWindow(window: int, desktop: nat)
    | PinWindow(window: int)
    | UnpinWindow(window: int)

  /** `k` calls that create a desktop. */
  function CreateCalls(k: nat): (r: seq<Call>)
    ensures |r| == k && forall c :: c in r ==> c == CreateDesktop
  {
    seq(k, _ => CreateDesktop)
  }

  /** How many desktops must be created so that a list of `count` desktops
      has one at position `index`: the least `k` with `count + k > index`. */
  function CreatesNeeded(count: nat, index: int): (k: nat)
    ensures count + k > index
    ensures k > 0 ==> count + k == index + 1
  {
    if count <= index then index + 1 - count else 0
  }

  class DesktopService {
    var desktops: seq<nat>
    var nextId: nat
    var current: nat
    var foreground: int
    var pinned: set<int>
    var placement: map<int, nat>
    var calls: seq<Call>

    /** Desktop identities are distinct and below `nextId`, so a created
        desktop is a new one. */
    ghost predicate Valid()
      reads this
    {
      (forall i :: 0 <= i < |desktops| ==> desktops[i] < nextId) &&
      (forall i, j :: 0 <= i < j < |desktops| ==> desktops[i] != desktops[j])
    }

    constructor (count: nat, foreground: int, pinned: set<int>)
      ensures Valid()
      ensures |desktops| == count && this.foreground == foreground && this.pinned == pinned
      ensures placement == map[] && calls == []
    {
      desktops := seq(count, i => i);
      nextId := count;
      current := 0;
      this.foreground := foreground;
      this.pinned := pinned;
      placement := map[];
      calls := [];
    }

    /** A snapshot of the desktop list. */
    method GetDesktops() returns (ds: seq<nat>)
      ensures ds == desktops
    {
      ds := desktops;
    }

    /** Append a new desktop to the list. */
    method Create()
      requires Valid()
      modifies this`desktops, this`nextId, this`calls
      ensures Valid()
      ensures |desktops| == |old(desktops)| + 1 && desktops[..|old(desktops)|] == old(desktops)
      ensures desktops[|old(desktops)|] !in old(desktops)
      ensures calls == old(calls) + [CreateDesktop]
    {
      desktops := desktops + [nextId];
      nextId := nextId + 1;
      calls := calls + [CreateDesktop];
    }

    /** Show desktop `d`. */
    method Switch(d: nat)
      modifies this`current, this`calls
      ensures current == d && calls == old(calls) + [SwitchDesktop(d)]
    {
      current := d;
      calls := calls + [SwitchDesktop(d)];
    }

    method GetForegroundWindow() returns (hWnd: int)
      ensures hWnd == foreground
    {
      hWnd := foreground;
    }

    function IsPinnedWindow(hWnd: int): bool
      reads this
    {
      hWnd in pinned
    }

    method Pin(hWnd: int)
      modifies this`pinned, this`calls
      ensures pinned == old(pinned) + {hWnd} && calls == old(calls) + [PinWindow(hWnd)]
    {
      pinned := pinned + {hWnd};
      calls := calls + [PinWindow(hWnd)];
    }

    method Unpin(hWnd: int)
      modifies this`pinned, this`calls
      ensures pinned == old(pinned) - {hWnd} && calls == old(calls) + [UnpinWindow(hWnd)]
    {
      pinned := pinned - {hWnd};
      calls := calls + [UnpinWindow(hWnd)];
    }

    method MoveToDesktop(hWnd: int, d: nat)
      modifies this`placement, this`calls
      ensures placement == old(placement)[hWnd := d] && calls == old(calls) + [MoveWindow(hWnd, d)]
    {
      placement := placement[hWnd := d];
      calls := calls + [MoveWindow(hWnd, d)];
    }
  }

  /** Create desktops one at a time, re-reading the list after each, until
      position `index` exists. Exactly the missing desktops are created, at
      the end of the list; the existing ones keep their order; nothing but
      the list changes. */
  method EnsureDesktop(svc: DesktopService, index: int) returns (desktops: seq<nat>)
    requires svc.Valid()
    modifies svc`desktops, svc`nextId, svc`calls
    ensures svc.Valid() && desktops == svc.desktops
    ensures var n := |old(svc.desktops)|;
      |desktops| == n + CreatesNeeded(n, index) && desktops[..n] == old(svc.desktops)
    ensures svc.calls == old(svc.calls) + CreateCalls(CreatesNeeded(|old(svc.desktops)|, index))
  {
    ghost var n := |svc.desktops|;
    desktops := svc.GetDesktops();
    while |desktops| <= index
      invariant svc.Valid() && desktops == svc.desktops
      invariant n <= |desktops| <= n + CreatesNeeded(n, index)
      invariant desktops[..n] == old(svc.desktops)
      invariant svc.calls == old(svc.calls) + CreateCalls(|desktops| - n)
      decreases index - |desktops|
    {
      svc.Create();
      desktops := svc.GetDesktops();
      assert CreateCalls(|desktops| - n) == CreateCalls(|desktops| - 1 - n) + [CreateDesktop];
    }
  }

  /** Show desktop `index`, first creating the desktops up to it. A negative
      index fails when the list is indexed (`thrown`), after the (empty)
      creation loop. */
  method SwitchToDesktop(svc: DesktopService, index: int) returns (thrown: bool)
    requires svc.Valid()
    modifies svc`desktops, svc`nextId, svc`calls, svc`current
    ensures svc.Valid()
    ensures thrown <==> index < 0
    ensures var n := |old(svc.desktops)|;
      var k := CreatesNeeded(n, index);
      |svc.desktops| == n + k && svc.desktops[..n] == old(svc.desktops) &&
      svc.calls == old(svc.calls) + CreateCalls(k) +
        (if thrown then [] else [SwitchDesktop(svc.desktops[index])])
    ensures svc.current == if thrown then old(svc.current) else svc.desktops[index]
  {
    var desktops := EnsureDesktop(svc, index);
    if index < 0 {
      return true;
    }
    svc.Switch(desktops[index]);
    thrown := false;
  }

  /** Move the foreground window to desktop `index`, first creating the
      desktops up to it. With no foreground window the creation loop still
      runs but no window is touched; a negative index fails only when there
      is a window to move. */
  method MoveWindowToDesktop(svc: DesktopService, index: int) returns (thrown: bool)
    requires svc.Valid()
    modifies svc`desktops, svc`nextId, svc`calls, svc`placement
    ensures svc.Valid()
    ensures thrown <==> index < 0 && svc.foreground != 0
    ensures var n := |old(svc.desktops)|;
      var k := CreatesNeeded(n, index);
      var moved := svc.foreground != 0 && index >= 0;
      |svc.desktops| == n + k && svc.desktops[..n] == old(svc.desktops) &&
      svc.calls == old(svc.calls) + CreateCalls(k) +
        (if moved then [MoveWindow(svc.foreground, svc.desktops[index])] else []) &&
      svc.placement == if moved then old(svc.placement)[svc.foreground := svc.desktops[index]]
                       else old(svc.placement)
  {
    var desktops := EnsureDesktop(svc, index);
    var hWnd := svc.GetForegroundWindow();
    if hWnd != 0 {
      if index < 0 {
        return true;
      }
      svc.MoveToDesktop(hWnd, desktops[index]);
    }
    thrown := false;
  }

  /** Flip the pin state of the foreground window; with no foreground window
      nothing happens. Every other window keeps its pin state. */
  method TogglePinCurrentWindow(svc: DesktopService)
    modifies svc`pinned, svc`calls
    ensures forall w :: w in svc.pinned <==>
      if w == svc.foreground && w != 0 then w !in old(svc.pinned) else w in old(svc.pinned)
    ensures svc.calls == old(svc.calls) +
      if svc.foreground == 0 then []
      else if svc.foreground in old(svc.pinned) then [UnpinWindow(svc.foreground)]
      else [PinWindow(svc.foreground)]
  {
    var hWnd := svc.GetForegroundWindow();
    if hWnd != 0 {
      if svc.IsPinnedWindow(hWnd) {
        svc.Unpin(hWnd);
      } else {
        svc.Pin(hWnd);
      }
    }
  }

  /** What a worker thread runs for a dispatched action: each case has the
      full effect of the routine it runs. In the model an action produced by
      the hook (index 0 to 8) never fails. */
  method Execute(svc: DesktopService, a: Action) returns (thrown: bool)
    requires svc.Valid()
    modifies svc`desktops, svc`nextId, svc`calls, svc`current, svc`placement, svc`pinned
    ensures svc.Valid()
    ensures a.TogglePin? ==>
      !thrown &&
      svc.desktops == old(svc.desktops) && svc.current == old(svc.current) &&
      svc.placement == old(svc.placement) &&
      (forall w :: w in svc.pinned <==>
        if w == svc.foreground && w != 0 then w !in old(svc.pinned) else w in old(svc.pinned)) &&
      svc.calls == old(svc.calls) +
        if svc.foreground == 0 then []
        else if svc.foreground in old(svc.pinned) then [UnpinWindow(svc.foreground)]
        else [PinWindow(svc.foreground)]
    ensures !a.TogglePin? ==>
      var n := |old(svc.desktops)|;
      |svc.desktops| == n + CreatesNeeded(n, a.index) &&
      svc.desktops[..n] == old(svc.desktops) && svc.pinned == old(svc.pinned)
    ensures a.Switch? ==>
      (thrown <==> a.index < 0) &&
      svc.placement == old(svc.placement) &&
      svc.calls == old(svc.calls) + CreateCalls(CreatesNeeded(|old(svc.desktops)|, a.index)) +
        (if thrown then [] else [SwitchDesktop(svc.desktops[a.index])]) &&
      svc.current == if thrown then old(svc.current) else svc.desktops[a.index]
    ensures a.Move? ==>
      var moved := svc.foreground != 0 && a.index >= 0;
      (thrown <==> a.index < 0 && svc.foreground != 0) &&
      svc.current == old(svc.current) &&
      svc.calls == old(svc.calls) + CreateCalls(CreatesNeeded(|old(svc.desktops)|, a.index)) +
        (if moved then [MoveWindow(svc.foreground, svc.desktops[a.index])] else []) &&
      svc.placement == if moved then old(svc.placement)[svc.foreground := svc.desktops[a.index]]
                       else old(svc.placement)
  {
    match a
    case TogglePin =>
      TogglePinCurrentWindow(svc);
      thrown := false;
    case Move(i) =>
      thrown := MoveWindowToDesktop(svc, i);
    case Switch(i) =>
      thrown := SwitchToDesktop(svc, i);
  }
}
