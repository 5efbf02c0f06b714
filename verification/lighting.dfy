/** The lighting-mode selector driven by `key_callback`: one integer, initially
    full ambient+diffuse+specular shading, set directly by the number keys 1-4 and
    cycled by L. The window, scancode and modifier arguments are never read, and the
    console messages are not modelled. */
module Lighting {

  // GLFW input constants, as glfw3.h defines them.
  const GlfwRelease: int := 0
  const GlfwPress: int := 1
  const GlfwRepeat: int := 2
  const GlfwKey1: int := 49
  const GlfwKey2: int := 50
  const GlfwKey3: int := 51
  const GlfwKey4: int := 52
  const GlfwKeyL: int := 76

  // The modes the shading stage understands.
  const Ambient: int := 0
  const Diffuse: int := 1
  const SpecularAmbient: int := 2
  const FullAds: int := 3

  /** `currentLightingMode` before any key is pressed. */
  const InitialMode: int := FullAds

  predicate ValidMode(mode: int)
  {
    Ambient <= mode <= FullAds
  }

  /** C++ `a / b` on `int`: truncated toward zero. */
  function CQuotient(a: int, b: int): int
    requires b != 0
  {
    if a >= 0 then a / b else -((-a) / b)
  }

  /** C++ `a % b` on `int`: what is left after the truncated quotient, so it takes
      the sign of `a`. */
  function CRemainder(a: int, b: int): (r: int)
    requires b != 0
    ensures 0 <= a ==> 0 <= r < (if b < 0 then -b else b)
    ensures a < 0 ==> -(if b < 0 then -b else b) < r <= 0
  {
    if a >= 0 then a % b else -((-a) % b)
  }

  /** `a % b` and `a / b` together give back the dividend, as C++ guarantees. */
  lemma CDivision(a: int, b: int)
    requires b != 0
    ensures a == b * CQuotient(a, b) + CRemainder(a, b)
  {
  }

  /** The mode after the L key: the next one in the cycle 0, 1, 2, 3, 0, ... */
  function NextMode(mode: int): (next: int)
    ensures ValidMode(mode) ==> next == (if mode == FullAds then Ambient else mode + 1)
  {
    CRemainder(mode + 1, 4)
  }

  /** One call of `key_callback(window, key, scancode, action, mods)`. */
  function KeyCallback(mode: int, key: int, action: int): (next: int)
    ensures ValidMode(mode) ==> ValidMode(next)
    ensures action != GlfwPress ==> next == mode
    ensures action == GlfwPress && GlfwKey1 <= key <= GlfwKey4 ==> next == key - GlfwKey1
    ensures !(GlfwKey1 <= key <= GlfwKey4 || key == GlfwKeyL) ==> next == mode
    ensures action == GlfwPress && key == GlfwKeyL && ValidMode(mode) ==> next != mode
  {
    if action == GlfwPress then
      if key == GlfwKey1 then Ambient
      else if key == GlfwKey2 then Diffuse
      else if key == GlfwKey3 then SpecularAmbient
      else if key == GlfwKey4 then FullAds
      else if key == GlfwKeyL then NextMode(mode)
      else mode
    else mode
  }

  /** Only presses act: releasing a key or holding it down changes nothing. */
  lemma ReleaseAndRepeatIgnored(mode: int, key: int)
    ensures KeyCallback(mode, key, GlfwRelease) == mode
    ensures KeyCallback(mode, key, GlfwRepeat) == mode
  {
  }

  datatype KeyEvent = KeyEvent(key: int, action: int)

  /** The mode after delivering `events` in order, starting from `mode`. */
  function Run(mode: int, events: seq<KeyEvent>): int
    decreases |events|
  {
    if events == [] then mode
    else Run(KeyCallback(mode, events[0].key, events[0].action), events[1..])
  }

  /** Whatever keys arrive, the mode the shading stage receives stays in 0..3. */
  lemma {:induction false} RunKeepsValid(mode: int, events: seq<KeyEvent>)
    requires ValidMode(mode)
    ensures ValidMode(Run(mode, events))
    decreases |events|
  {
    if events != [] {
      RunKeepsValid(KeyCallback(mode, events[0].key, events[0].action), events[1..]);
    }
  }

  lemma ReachableModesValid(events: seq<KeyEvent>)
    ensures ValidMode(Run(InitialMode, events))
  {
    RunKeepsValid(InitialMode, events);
  }

  /** Only presses of 1-4 and L matter: dropping every other event changes nothing. */
  predicate Effective(e: KeyEvent)
  {
    e.action == GlfwPress && (GlfwKey1 <= e.key <= GlfwKey4 || e.key == GlfwKeyL)
  }

  function EffectiveOnly(events: seq<KeyEvent>): (r: seq<KeyEvent>)
    ensures forall e <- r :: Effective(e) && e in events
    decreases |events|
  {
    if events == [] then []
    else if Effective(events[0]) then [events[0]] + EffectiveOnly(events[1..])
    else EffectiveOnly(events[1..])
  }

  lemma {:induction false} IneffectiveEventsIgnored(mode: int, events: seq<KeyEvent>)
    ensures Run(mode, events) == Run(mode, EffectiveOnly(events))
    decreases |events|
  {
    if events != [] {
      var e := events[0];
      var next := KeyCallback(mode, e.key, e.action);
      IneffectiveEventsIgnored(next, events[1..]);
      if Effective(e) {
        var r := [e] + EffectiveOnly(events[1..]);
        assert r[0] == e && r[1..] == EffectiveOnly(events[1..]);
      } else {
        assert next == mode;
      }
    }
  }

  /** A press of key `1 + m` selects mode `m` whatever happened before it. */
  lemma {:induction false} NumberKeySelects(mode: int, events: seq<KeyEvent>, m: int)
    requires 0 <= m <= 3
    ensures Run(mode, events + [KeyEvent(GlfwKey1 + m, GlfwPress)]) == m
    decreases |events|
  {
    if events == [] {
      assert [KeyEvent(GlfwKey1 + m, GlfwPress)][1..] == [];
    } else {
      var e := events[0];
      assert (events + [KeyEvent(GlfwKey1 + m, GlfwPress)])[1..] == events[1..] + [KeyEvent(GlfwKey1 + m, GlfwPress)];
      NumberKeySelects(KeyCallback(mode, e.key, e.action), events[1..], m);
    }
  }

  function PressL(n: nat): (r: seq<KeyEvent>)
    ensures |r| == n
  {
    if n == 0 then [] else [KeyEvent(GlfwKeyL, GlfwPress)] + PressL(n - 1)
  }

  /** Pressing L `n` times from a valid mode advances it by `n` modulo 4, so every mode
      is reachable and four presses return to where it started. */
  lemma {:induction false} LCycles(mode: int, n: nat)
    requires ValidMode(mode)
    ensures Run(mode, PressL(n)) == (mode + n) % 4
    decreases n
  {
    if n > 0 {
      var next := KeyCallback(mode, GlfwKeyL, GlfwPress);
      assert PressL(n)[0] == KeyEvent(GlfwKeyL, GlfwPress) && PressL(n)[1..] == PressL(n - 1);
      assert Run(mode, PressL(n)) == Run(next, PressL(n - 1));
      LCycles(next, n - 1);
      if mode == FullAds {
        assert next == Ambient;
        assert (n - 1 + 4) % 4 == (n - 1) % 4;
      } else {
        assert next == mode + 1;
      }
    }
  }
}
