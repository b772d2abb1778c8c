/**
 * The window-state bookkeeping of `WindowManager`: the default
 * configuration, the whitelisted merge of a new or saved state, the clamp to
 * the minimum size, resizing, the centring arithmetic, and the `WxH+X+Y`
 * geometry string Tk uses.
 *
 * The state is a dictionary of JSON values, since a saved state file may put
 * any value under a key; a comparison Python cannot make raises `TypeError`,
 * which each operation catches as the source does.
 */
module WindowManagers {
  import opened Wrappers
  import opened Text
  import opened Json

  type State = map<string, Json>

  /** `default_config`. */
  function DefaultConfig(): (d: State)
    ensures d.Keys == DefaultKeys()
    ensures d["width"] == JInt(1200) && d["height"] == JInt(800)
    ensures d["min_width"] == JInt(800) && d["min_height"] == JInt(600)
    ensures d["x_pos"] == JInt(-1) && d["y_pos"] == JInt(-1)
    ensures d["maximized"] == JBool(false) && d["decorated"] == JBool(true)
    ensures d["resizable"] == JBool(true) && d["always_on_top"] == JBool(false)
  {
    map["width" := JInt(1200), "height" := JInt(800), "min_width" := JInt(800), "min_height" := JInt(600),
        "x_pos" := JInt(-1), "y_pos" := JInt(-1), "maximized" := JBool(false), "decorated" := JBool(true),
        "resizable" := JBool(true), "always_on_top" := JBool(false)]
  }

  function DefaultKeys(): set<string> {
    {"width", "height", "min_width", "min_height", "x_pos", "y_pos", "maximized", "decorated", "resizable",
     "always_on_top"}
  }

  /**
   * The loop of `set_window_state` and `_load_window_state`: every key of
   * `state` that `default_config` has is copied in; other keys are ignored.
   */
  function Merged(current: State, state: State): (r: State)
    ensures forall k :: k in r ==> k in current || k in DefaultKeys()
  {
    MergedWith(current, state, DefaultKeys())
  }

  /** `current` with every key of `state` that is in `allowed` copied in. */
  function MergedWith(current: State, state: State, allowed: set<string>): (r: State)
    ensures current.Keys <= r.Keys
    ensures forall k :: k in r && k !in current ==> k in allowed
  {
    map k | k in current.Keys + (state.Keys * allowed) ::
      if k in state && k in allowed then state[k] else current[k]
  }

  /** The merge loop over the whitelist `allowed`, one key of `state` at a time, in any order. */
  method CopyAllowed(start: State, state: State, allowed: set<string>) returns (m: State)
    ensures m == MergedWith(start, state, allowed)
  {
    var remaining := state.Keys;
    m := start;
    while remaining != {}
      invariant remaining <= state.Keys
      invariant m.Keys == start.Keys + ((state.Keys - remaining) * allowed)
      invariant forall k :: k in state && k !in remaining && k in allowed ==> m[k] == state[k]
      invariant forall k :: k in start && !(k in state && k !in remaining && k in allowed) ==> m[k] == start[k]
      decreases |remaining|
    {
      var key :| key in remaining;
      if key in allowed {
        m := m[key := state[key]];
      }
      remaining := remaining - {key};
    }
    MergedWithCharacterised(start, state, allowed, m);
  }

  /** A state with the keys and values the merge describes is the merge. */
  lemma MergedWithCharacterised(start: State, state: State, allowed: set<string>, m: State)
    requires m.Keys == start.Keys + (state.Keys * allowed)
    requires forall k :: k in state && k in allowed ==> m[k] == state[k]
    requires forall k :: k in start && !(k in state && k in allowed) ==> m[k] == start[k]
    ensures m == MergedWith(start, state, allowed)
  {
    assert m.Keys == MergedWith(start, state, allowed).Keys;
  }

  /** The merge copies exactly the whitelisted keys and keeps everything else. */
  lemma MergedContents(current: State, state: State)
    ensures Merged(current, state).Keys == current.Keys + (state.Keys * DefaultKeys())
    ensures forall k :: k in state && k in DefaultKeys() ==> Merged(current, state)[k] == state[k]
    ensures forall k :: k in current && !(k in state && k in DefaultKeys()) ==> Merged(current, state)[k] == current[k]
  {
  }

  /** A state with exactly the default keys keeps that key set through a merge: unknown keys never get in. */
  lemma MergedKeepsKeys(current: State, state: State)
    requires current.Keys == DefaultKeys()
    ensures Merged(current, state).Keys == DefaultKeys()
  {
  }

  /**
   * One check of `_validate_window_dimensions`: `m[k]` is raised to `m[mk]`
   * when it is smaller; `None` when a key is missing or the values cannot be
   * compared (the exception ends the validation).
   */
  function RaiseTo(m: State, k: string, mk: string): (r: Option<State>)
    ensures r.Some? ==> r.value.Keys == m.Keys
  {
    if k !in m || mk !in m then None
    else match PyLess(m[k], m[mk])
      case None => None
      case Some(smaller) => Some(if smaller then m[k := m[mk]] else m)
  }

  /** `_validate_window_dimensions`: the width check, then the height check, stopping at the first error. */
  function Validated(m: State): (r: State)
    ensures r.Keys == m.Keys
    ensures forall k :: k in m && k != "width" && k != "height" ==> r[k] == m[k]
  {
    match RaiseTo(m, "width", "min_width")
    case None => m
    case Some(m1) =>
      match RaiseTo(m1, "height", "min_height")
      case None => m1
      case Some(m2) => m2
  }

  /** All four dimensions are integers. */
  predicate IntDimensions(m: State) {
    "width" in m && "height" in m && "min_width" in m && "min_height" in m
    && m["width"].JInt? && m["height"].JInt? && m["min_width"].JInt? && m["min_height"].JInt?
  }

  /**
   * With integer dimensions, validation raises the width and height to at
   * least their minimums and leaves them alone when they already are —
   * that is, each becomes the larger of itself and its minimum.
   */
  lemma ValidatedDimensions(m: State)
    requires IntDimensions(m)
    ensures IntDimensions(Validated(m))
    ensures Validated(m)["width"].i >= m["min_width"].i && Validated(m)["height"].i >= m["min_height"].i
    ensures m["width"].i >= m["min_width"].i ==> Validated(m)["width"] == m["width"]
    ensures m["height"].i >= m["min_height"].i ==> Validated(m)["height"] == m["height"]
    ensures Validated(m)["width"].i == Max(m["width"].i, m["min_width"].i)
    ensures Validated(m)["height"].i == Max(m["height"].i, m["min_height"].i)
  {
  }

  /** Validating twice changes nothing more, when the values are integers. */
  lemma ValidatedIdempotent(m: State)
    requires IntDimensions(m)
    ensures Validated(Validated(m)) == Validated(m)
  {
    ValidatedDimensions(m);
    var v := Validated(m);
    assert RaiseTo(v, "width", "min_width") == Some(v);
    assert RaiseTo(v, "height", "min_height") == Some(v);
  }

  function Max(a: int, b: int): (r: int)
    ensures r >= a && r >= b && (r == a || r == b)
  {
    if a >= b then a else b
  }

  /** Python's `max(a, b)`: `b` when `b > a`, else `a`; `None` when they cannot be compared. */
  function PyMax(a: Json, b: Json): (r: Option<Json>)
    ensures a.JInt? && b.JInt? ==> r == Some(JInt(Max(a.i, b.i)))
  {
    match PyLess(a, b)
    case None => None
    case Some(less) => Some(if less then b else a)
  }

  /**
   * `resize_window(width, height)`: both are raised to the current minimums
   * and stored; an error (a missing or incomparable minimum) changes nothing.
   */
  function Resized(m: State, width: int, height: int): (r: State)
    ensures "min_width" in m && "min_height" in m && m["min_width"].JInt? && m["min_height"].JInt? ==>
              r == m["width" := JInt(Max(width, m["min_width"].i))]["height" := JInt(Max(height, m["min_height"].i))]
  {
    if "min_width" !in m then m
    else match PyMax(JInt(width), m["min_width"])
      case None => m
      case Some(w) =>
        if "min_height" !in m then m
        else match PyMax(JInt(height), m["min_height"])
          case None => m
          case Some(h) => m["width" := w]["height" := h]
  }

  /** Python's `a // 2`: floor division, which Dafny's `/` by a positive divisor already is. */
  function Half(a: int): (r: int)
    ensures 2 * r <= a < 2 * r + 2
  {
    a / 2
  }

  /**
   * `_calculate_center_position` on a screen of `screenW` by `screenH`; a
   * stored size that is not a number raises, and the fallback is `(100, 100)`.
   */
  function CenterPosition(m: State, screenW: int, screenH: int): (p: (int, int))
    ensures p.0 >= 0 && p.1 >= 0
  {
    if "width" in m && "height" in m && Number(m["width"]).Some? && Number(m["height"]).Some? then
      (Max(0, Half(screenW - Number(m["width"]).value)), Max(0, Half(screenH - Number(m["height"]).value)))
    else (100, 100)
  }

  /**
   * A window that fits on the screen is centred: the margins left and right
   * differ by at most one pixel. One wider than the screen sits at 0.
   */
  lemma CenterPositionCentres(m: State, screenW: int, screenH: int)
    requires "width" in m && "height" in m && m["width"].JInt? && m["height"].JInt?
    ensures m["width"].i <= screenW ==>
              var x := CenterPosition(m, screenW, screenH).0;
              x + m["width"].i <= screenW && 0 <= (screenW - x - m["width"].i) - x <= 1
    ensures m["height"].i <= screenH ==>
              var y := CenterPosition(m, screenW, screenH).1;
              y + m["height"].i <= screenH && 0 <= (screenH - y - m["height"].i) - y <= 1
    ensures m["width"].i > screenW ==> CenterPosition(m, screenW, screenH).0 == 0
    ensures m["height"].i > screenH ==> CenterPosition(m, screenW, screenH).1 == 0
  {
  }

  /** The geometry string `f"{w}x{h}+{x}+{y}"`. */
  function Geometry(w: int, h: int, x: int, y: int): (g: string)
    ensures |g| >= 7
  {
    IntToString(w) + "x" + IntToString(h) + "+" + IntToString(x) + "+" + IntToString(y)
  }

  /**
   * The parse in `save_window_state`: split once on `+`, the size part on
   * `x` into exactly two numbers, and the first two `+`-pieces of the rest
   * as the position. `None` wherever Python raises.
   */
  function ParseGeometry(g: string): (r: Option<(int, int, int, int)>)
  {
    var parts := SplitOnce(g, '+');
    if |parts| != 2 then None
    else
      var size := Split(parts[0], 'x');
      var pos := Split(parts[1], '+');
      if |size| != 2 || |pos| < 2 then None
      else
        var w, h, x, y := ParseInt(size[0]), ParseInt(size[1]), ParseInt(pos[0]), ParseInt(pos[1]);
        if w.None? || h.None? || x.None? || y.None? then None
        else Some((w.value, h.value, x.value, y.value))
  }

  /** Parsing a formatted geometry gives back its four numbers, for any integers (negative positions included). */
  lemma GeometryRoundTrip(w: int, h: int, x: int, y: int)
    ensures ParseGeometry(Geometry(w, h, x, y)) == Some((w, h, x, y))
  {
    var W, H, X, Y := IntToString(w), IntToString(h), IntToString(x), IntToString(y);
    IntToStringChars(w);
    IntToStringChars(h);
    IntToStringChars(x);
    IntToStringChars(y);
    assert '+' !in W + "x" + H by {
      forall k | 0 <= k < |W + "x" + H| ensures (W + "x" + H)[k] != '+' {
        if k < |W| { assert (W + "x" + H)[k] == W[k]; }
        else if k > |W| { assert (W + "x" + H)[k] == H[k - |W| - 1]; }
      }
    }
    assert 'x' !in W && 'x' !in H && '+' !in X && '+' !in Y;
    assert Geometry(w, h, x, y) == (W + "x" + H) + ['+'] + (X + "+" + Y);
    SplitOnceJoin(W + "x" + H, X + "+" + Y, '+');
    assert W + "x" + H == W + ['x'] + H;
    SplitJoin(W, H, 'x');
    assert X + "+" + Y == X + ['+'] + Y;
    SplitJoin(X, Y, '+');
    ParseIntToString(w);
    ParseIntToString(h);
    ParseIntToString(x);
    ParseIntToString(y);
  }

  class WindowManager {
    var currentState: State

    /** The state always has exactly the keys of `default_config`. */
    ghost predicate Valid()
      reads this
    {
      currentState.Keys == DefaultKeys()
    }

    constructor ()
      ensures Valid() && currentState == DefaultConfig()
    {
      currentState := DefaultConfig();
    }

    /** `_validate_window_dimensions`. */
    method ValidateWindowDimensions()
      modifies this
      ensures currentState == Validated(old(currentState))
    {
      var m := currentState;
      if "width" !in m || "min_width" !in m {
        return;
      }
      var smaller := PyLess(m["width"], m["min_width"]);
      if smaller.None? {
        return;
      }
      if smaller.value {
        m := m["width" := m["min_width"]];
      }
      currentState := m;
      if "height" !in m || "min_height" !in m {
        return;
      }
      smaller := PyLess(m["height"], m["min_height"]);
      if smaller.None? {
        return;
      }
      if smaller.value {
        m := m["height" := m["min_height"]];
      }
      currentState := m;
    }

    /** The merge loop: every whitelisted key of `state` is copied in. */
    method MergeState(state: State)
      modifies this
      ensures currentState == Merged(old(currentState), state)
    {
      currentState := CopyAllowed(currentState, state, DefaultKeys());
    }

    /** `set_window_state`: merge, then validate. */
    method SetWindowState(state: State)
      requires Valid()
      modifies this
      ensures Valid()
      ensures currentState == Validated(Merged(old(currentState), state))
    {
      MergeState(state);
      ValidateWindowDimensions();
    }

    /**
     * `_load_window_state`: no file leaves the state alone; an unreadable
     * file or one that is not an object resets it to the defaults; otherwise
     * the saved values are merged in and validated.
     */
    method LoadWindowState(file: FileState)
      requires Valid()
      modifies this
      ensures Valid()
      ensures file.Missing? ==> currentState == old(currentState)
      ensures file.Unreadable? || (file.Parsed? && !file.value.JObject?) ==> currentState == DefaultConfig()
      ensures file.Parsed? && file.value.JObject? ==>
                currentState == Validated(Merged(old(currentState), file.value.fields))
    {
      match file
      case Missing =>
      case Unreadable =>
        currentState := DefaultConfig();
      case Parsed(saved) =>
        if !saved.JObject? {
          currentState := DefaultConfig();
        } else {
          MergeState(saved.fields);
          ValidateWindowDimensions();
        }
    }

    /** `resize_window`. */
    method ResizeWindow(width: int, height: int)
      requires Valid()
      modifies this
      ensures Valid()
      ensures currentState == Resized(old(currentState), width, height)
    {
      var minWidth := currentState["min_width"];
      var w := PyMax(JInt(width), minWidth);
      if w.None? {
        return;
      }
      var h := PyMax(JInt(height), currentState["min_height"]);
      if h.None? {
        return;
      }
      currentState := currentState["width" := w.value];
      currentState := currentState["height" := h.value];
    }

    /** `get_window_state`: the returned dictionary is a value, so changing it cannot change the manager. */
    function GetWindowState(): (r: State)
      reads this
      ensures r.Keys == currentState.Keys && forall k :: k in r ==> r[k] == currentState[k]
    {
      currentState
    }
  }
}
