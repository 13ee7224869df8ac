/** `GLESEngine`: the EGL set-up and tear-down around the global `engine`
    record, with every EGL and GL call abstracted. A handle (`EGLDisplay`,
    `EGLSurface`, `EGLContext`) is a `nat`, and `0` stands for `NULL`, which
    is also the value of `EGL_NO_DISPLAY`, `EGL_NO_SURFACE` and
    `EGL_NO_CONTEXT`. */
module GLESEngine {
  import opened Wrappers
  import opened CNumerics

  const NoHandle: nat := 0

  // ---------------------------------------------------------------------
  // Config selection
  // ---------------------------------------------------------------------

  /** The answers of the five `eglGetConfigAttrib` queries for one config;
      `None` is a query that returned `EGL_FALSE`. */
  datatype ConfigAttribs = ConfigAttribs(red: Option<int>, green: Option<int>, blue: Option<int>,
                                         alpha: Option<int>, depth: Option<int>)

  /** The test of the selection loop: all five queries succeed and report
      8-bit colour channels and a 16-bit depth buffer. */
  predicate Matches(c: ConfigAttribs)
  {
    && c.red == Some(8) && c.green == Some(8) && c.blue == Some(8)
    && c.alpha == Some(8) && c.depth == Some(16)
  }

  /** The index of the first matching config at or after `i`, or
      `|configs|` when there is none. */
  function FirstMatchFrom(configs: seq<ConfigAttribs>, i: nat): (k: nat)
    requires i <= |configs|
    ensures i <= k <= |configs|
    decreases |configs| - i
  {
    if i == |configs| then i
    else if Matches(configs[i]) then i
    else FirstMatchFrom(configs, i + 1)
  }

  /** The config `GLESEngine_init` uses: the first match, else the very
      first config. */
  function ChosenConfig(configs: seq<ConfigAttribs>): (k: nat)
    requires |configs| > 0
    ensures k < |configs|
  {
    var i := FirstMatchFrom(configs, 0);
    if i == |configs| then 0 else i
  }

  /** `FirstMatchFrom` finds the first match after `i` when there is one,
      and reports `|configs|` exactly when there is none. */
  lemma {:induction false} FirstMatchFromIsFirst(configs: seq<ConfigAttribs>, i: nat)
    requires i <= |configs|
    ensures var k := FirstMatchFrom(configs, i);
      && (forall j :: i <= j < k ==> !Matches(configs[j]))
      && (k < |configs| ==> Matches(configs[k]))
      && (k == |configs| <==> forall j :: i <= j < |configs| ==> !Matches(configs[j]))
    decreases |configs| - i
  {
    if i < |configs| && !Matches(configs[i]) {
      FirstMatchFromIsFirst(configs, i + 1);
    }
  }

  /** The selection rule: the chosen config matches exactly when some config
      matches, no earlier config matches, and with no match at all it is the
      first one. */
  lemma ChosenConfigIsFirstMatch(configs: seq<ConfigAttribs>)
    requires |configs| > 0
    ensures var k := ChosenConfig(configs);
      && (Matches(configs[k]) <==> exists j :: 0 <= j < |configs| && Matches(configs[j]))
      && (forall j :: 0 <= j < k ==> !Matches(configs[j]))
      && ((forall j :: 0 <= j < |configs| ==> !Matches(configs[j])) ==> k == 0)
  {
    FirstMatchFromIsFirst(configs, 0);
  }

  /** The `for` loop with `break` and the `i == numConfigs` fallback after
      it. The `assert(numConfigs)` of the source is the precondition. */
  method ChooseConfig(configs: seq<ConfigAttribs>) returns (config: nat)
    requires |configs| > 0
    ensures config == ChosenConfig(configs)
  {
    config := 0;
    var i := 0;
    while i < |configs|
      invariant 0 <= i <= |configs|
      invariant FirstMatchFrom(configs, i) == FirstMatchFrom(configs, 0)
    {
      if Matches(configs[i]) {
        config := i;
        break;
      }
      i := i + 1;
    }
    if i == |configs| {
      config := 0;
    }
  }

  // ---------------------------------------------------------------------
  // Viewport
  // ---------------------------------------------------------------------

  /** The arguments of `glViewport`: lower-left corner, width and height. */
  datatype Rect = Rect(x: int, y: int, width: int, height: int)

  /** The enlarged square viewport for a `w` x `h` window, with C's
      precedence and its truncating `/`. */
  function ViewportFor(w: int, h: int): (v: Rect)
    ensures v.width == v.height
  {
    if w <= h then
      Rect(CDiv(w - h, 2) - CDiv(h, 6), CDiv(-h * 1, 3), CDiv(h * 4, 3), CDiv(h * 4, 3))
    else
      Rect(CDiv(-w, 6), CDiv(h - w, 2) - CDiv(w * 1, 3), CDiv(w * 4, 3), CDiv(w * 4, 3))
  }

  function Max(a: int, b: int): (m: int)
  {
    if a < b then b else a
  }

  /** For a window of non-negative size the square is 4/3 of the longer
      side (rounded down), covers the whole window, and in the portrait
      case ends exactly at the window's top edge, so the extra third hangs
      below the window. */
  lemma ViewportCoversWindow(w: int, h: int)
    requires 0 <= w && 0 <= h
    ensures var v := ViewportFor(w, h);
      && 3 * v.width <= 4 * Max(w, h) < 3 * v.width + 3
      && v.x <= 0 && v.y <= 0
      && w <= v.x + v.width && h <= v.y + v.height
      && (w <= h ==> v.y + v.height == h)
  {
  }

  /** A 1080 x 1920 portrait window gets a 2560-pixel square whose top edge
      is the window's. */
  lemma PortraitExample()
    ensures ViewportFor(1080, 1920) == Rect(-740, -640, 2560, 2560)
  {
  }

  /** With Dafny's Euclidean `/` in place of C's the portrait offset of a
      window one pixel narrower than it is tall would be off by one: C gives
      `(1 - 2) / 2 == 0`. */
  lemma TruncationMatters()
    ensures ViewportFor(1, 2).x == 0
    ensures (1 - 2) / 2 - 2 / 6 == -1
  {
  }

  // ---------------------------------------------------------------------
  // The `engine` record
  // ---------------------------------------------------------------------

  /** The value of the global `engine` record. */
  datatype EngineState = EngineState(display: nat, surface: nat, context: nat,
                                     width: int, height: int, viewportSize: int)

  /** The static initialiser of `engine`. */
  const InitialState := EngineState(NoHandle, NoHandle, NoHandle, 0, 0, 0)

  /** What a successful `GLESEngine_init` stores. */
  function AfterInit(display: nat, surface: nat, context: nat, w: int, h: int): (s: EngineState)
  {
    EngineState(display, surface, context, w, h, ViewportFor(w, h).width)
  }

  /** What `GLESEngine_destroy` leaves: everything reset except the
      viewport size. */
  function AfterDestroy(s: EngineState): (t: EngineState)
  {
    InitialState.(viewportSize := s.viewportSize)
  }

  /** Whether `GLESEngine_refresh` calls `eglSwapBuffers` in state `s`. */
  predicate Swaps(s: EngineState)
  {
    s.display != NoHandle
  }

  /** The EGL calls `GLESEngine_destroy` makes, in order. */
  datatype EglCall =
    | ReleaseCurrent(display: nat)
    | DestroyContext(display: nat, context: nat)
    | DestroySurface(display: nat, surface: nat)
    | Terminate(display: nat)

  function TeardownCalls(s: EngineState): (calls: seq<EglCall>)
  {
    if s.display == NoHandle then []
    else
      [ReleaseCurrent(s.display)]
      + (if s.context != NoHandle then [DestroyContext(s.display, s.context)] else [])
      + (if s.surface != NoHandle then [DestroySurface(s.display, s.surface)] else [])
      + [Terminate(s.display)]
  }

  /** Tear-down only happens with a display: it first releases the current
      context, destroys exactly the context and surface that are set, and
      ends by terminating the display, every call naming the stored
      display. */
  lemma TeardownOrder(s: EngineState)
    ensures var calls := TeardownCalls(s);
      && (calls == [] <==> s.display == NoHandle)
      && (s.display != NoHandle ==>
            && calls[0] == ReleaseCurrent(s.display)
            && calls[|calls| - 1] == Terminate(s.display)
            && |calls| == 2 + (if s.context != NoHandle then 1 else 0) + (if s.surface != NoHandle then 1 else 0))
      && (DestroyContext(s.display, s.context) in calls <==> s.display != NoHandle && s.context != NoHandle)
      && (DestroySurface(s.display, s.surface) in calls <==> s.display != NoHandle && s.surface != NoHandle)
      && (forall k :: 0 <= k < |calls| ==> calls[k].display == s.display)
  {
  }

  /** Destroying twice is the same as destroying once, and only the first
      of the two calls talks to EGL. */
  lemma DestroyIdempotent(s: EngineState)
    ensures AfterDestroy(AfterDestroy(s)) == AfterDestroy(s)
    ensures TeardownCalls(AfterDestroy(s)) == []
  {
  }

  /** After a tear-down, refreshing swaps nothing, and the viewport size of
      the last successful init survives. */
  lemma DestroyThenRefresh(s: EngineState)
    ensures !Swaps(AfterDestroy(s))
    ensures AfterDestroy(s).viewportSize == s.viewportSize
  {
  }

  /** A destroy after a successful init keeps that init's viewport size and
      otherwise restores the initial record. */
  lemma InitThenDestroy(display: nat, surface: nat, context: nat, w: int, h: int)
    ensures AfterDestroy(AfterInit(display, surface, context, w, h))
      == InitialState.(viewportSize := ViewportFor(w, h).width)
  {
  }

  /** The global `engine`. */
  class Engine {
    var display: nat
    var surface: nat
    var context: nat
    var width: int
    var height: int
    var viewportSize: int

    function State(): (s: EngineState)
      reads this
    {
      EngineState(display, surface, context, width, height, viewportSize)
    }

    constructor ()
      ensures State() == InitialState
    {
      display, surface, context := NoHandle, NoHandle, NoHandle;
      width, height, viewportSize := 0, 0, 0;
    }

    /** `GLESEngine_init`. `eglDisplay` is what `eglGetDisplay` returns,
        `configs` the attributes of the configs `eglChooseConfig` lists,
        `createSurface` and `createContext` give the handles EGL creates for
        a config index, `makeCurrent` the verdict of `eglMakeCurrent`, and
        `w`, `h` what `eglQuerySurface` reports. */
    method Init(eglDisplay: nat, configs: seq<ConfigAttribs>,
                createSurface: nat -> nat, createContext: nat -> nat,
                makeCurrent: (nat, nat, nat) -> bool, w: int, h: int) returns (rc: int)
      requires |configs| > 0
      modifies this
      ensures var config := ChosenConfig(configs);
        var surf, ctx := createSurface(config), createContext(config);
        if makeCurrent(eglDisplay, surf, ctx) then
          rc == 0 && State() == AfterInit(eglDisplay, surf, ctx, w, h)
        else
          rc == -1 && State() == old(State())
    {
      var config := ChooseConfig(configs);
      var surf := createSurface(config);
      var ctx := createContext(config);
      if !makeCurrent(eglDisplay, surf, ctx) {
        return -1;
      }
      display := eglDisplay;
      context := ctx;
      surface := surf;
      width := w;
      height := h;
      viewportSize := ViewportFor(w, h).width;
      return 0;
    }

    /** `GLESEngine_refresh`: `swapped` tells whether `eglSwapBuffers`
        was called. */
    method Refresh() returns (swapped: bool)
      ensures swapped <==> Swaps(State())
    {
      swapped := false;
      if display == NoHandle {
        return;
      }
      swapped := true;
    }

    /** `GLESEngine_destroy`, returning the EGL calls it makes. */
    method Destroy() returns (calls: seq<EglCall>)
      modifies this
      ensures calls == TeardownCalls(old(State()))
      ensures State() == AfterDestroy(old(State()))
    {
      calls := [];
      if display != NoHandle {
        calls := calls + [ReleaseCurrent(display)];
        if context != NoHandle {
          calls := calls + [DestroyContext(display, context)];
        }
        if surface != NoHandle {
          calls := calls + [DestroySurface(display, surface)];
        }
        calls := calls + [Terminate(display)];
      }
      display := NoHandle;
      context := NoHandle;
      surface := NoHandle;
      width := 0;
      height := 0;
    }

    method GetWidth() returns (w: int)
      ensures w == State().width
    {
      w := width;
    }

    method GetHeight() returns (h: int)
      ensures h == State().height
    {
      h := height;
    }

    method GetViewportSize() returns (size: int)
      ensures size == State().viewportSize
    {
      size := viewportSize;
    }
  }
}
