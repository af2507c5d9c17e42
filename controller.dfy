/**
 The theme and seasonal-effect state machine of the app component as pure
 functions on an abstract `View` of its state. Each function gives the new
 state after one of the component's methods; the class in module `App`
 is proved to follow them.
 */
module Controller {
  import opened Wrappers
  import opened Themes

  /**
   What the component's methods read and change: the theme index, theme and
   icon fields, the `data-theme` attribute of the root element, whether an
   audio handle, a snowflake interval and the snowflake container exist, and
   the saved preference.
   */
  datatype View = View(
    index: int,
    theme: Theme,
    icon: string,
    attribute: Option<string>,
    audio: bool,
    interval: bool,
    container: bool,
    stored: Option<string>)

  /** No effect session: no music, no timer, no overlay. */
  predicate Idle(v: View)
  {
    !v.audio && !v.interval && !v.container
  }

  /** A complete effect session: music, timer and overlay. */
  predicate Active(v: View)
  {
    v.audio && v.interval && v.container
  }

  /**
   The invariant the component keeps once initialised: index, theme, icon
   and attribute agree with the tables, and an effect session exists exactly
   while the theme is christmas.
   */
  predicate Consistent(v: View)
  {
    0 <= v.index < |Order| &&
    v.theme == Order[v.index] &&
    v.icon == Icon(v.theme) &&
    v.attribute == Some(Name(v.theme)) &&
    (if v.theme == Christmas then Active(v) else Idle(v))
  }

  /**
   `clearSnowflakes`: stop the interval and remove the overlay; the music,
   the theme fields, the attribute and storage are not touched.
   */
  function ClearSnowflakes(v: View): (r: View)
    ensures !r.interval && !r.container
    ensures r.audio == v.audio && r.index == v.index && r.theme == v.theme
    ensures r.icon == v.icon && r.attribute == v.attribute && r.stored == v.stored
  {
    v.(interval := false, container := false)
  }

  /**
   `createSnowflakes`: attach the overlay and start the interval; nothing
   else changes, in particular not the music.
   */
  function CreateSnowflakes(v: View): (r: View)
    ensures r.interval && r.container
    ensures r.audio == v.audio && r.index == v.index && r.theme == v.theme
    ensures r.icon == v.icon && r.attribute == v.attribute && r.stored == v.stored
  {
    v.(interval := true, container := true)
  }

  /**
   `playChristmasMusic`: starts music and snowflakes only when no audio
   handle exists; otherwise it does nothing at all.
   */
  function PlayChristmasMusic(v: View): (r: View)
    ensures v.audio ==> r == v
    ensures !v.audio ==> Active(r)
    ensures r.index == v.index && r.theme == v.theme && r.icon == v.icon
    ensures r.attribute == v.attribute && r.stored == v.stored
  {
    if v.audio then v else CreateSnowflakes(v.(audio := true))
  }

  /**
   `updateTheme(t)`: sets icon and attribute for `t`, always clears the
   snowflakes, and then either (re)starts the christmas effect or drops the
   audio. Entering christmas yields a complete session exactly when there
   was no audio handle before.
   */
  function UpdateTheme(v: View, t: Theme): (r: View)
    ensures r.icon == Icon(t) && r.attribute == Some(Name(t))
    ensures t != Christmas ==> Idle(r)
    ensures t == Christmas ==> r.audio && (Active(r) <==> !v.audio)
    ensures r.index == v.index && r.theme == v.theme && r.stored == v.stored
  {
    var w := ClearSnowflakes(v.(icon := Icon(t), attribute := Some(Name(t))));
    if t == Christmas then PlayChristmasMusic(w) else w.(audio := false)
  }

  /** The theme `ngOnInit` settles on, from the saved value and the system signal. */
  function InitialTheme(saved: Option<string>, prefersDark: bool): (t: Theme)
    ensures Parse(saved).Some? ==> t == Parse(saved).value
    ensures Parse(saved).None? ==> t != Christmas && (t == Dark <==> prefersDark)
  {
    match Parse(saved)
    case Some(s) => s
    case None => if prefersDark then Dark else Light
  }

  /**
   `ngOnInit`: adopt a valid saved theme with its index, or else dark
   (index 0) when the system prefers dark and light (index 1) otherwise,
   then apply it. On a component without music (as Angular creates it)
   the result is consistent.
   */
  function Init(v: View, prefersDark: bool): (r: View)
    ensures r.theme == InitialTheme(v.stored, prefersDark)
    ensures !v.audio ==> Consistent(r)
    ensures r.stored == v.stored
  {
    match Parse(v.stored)
    case Some(t) =>
      UpdateTheme(v.(theme := t, index := IndexOf(t)), t)
    case None =>
      var t := if prefersDark then Dark else Light;
      UpdateTheme(v.(theme := t, index := if prefersDark then 0 else 1), t)
  }

  /**
   `toggleTheme`: advance the index modulo 3, take the theme at that index,
   apply it and save its name.
   */
  function Toggle(v: View): (r: View)
    requires 0 <= v.index < |Order|
    ensures r.index == NextIndex(v.index)
    ensures r.theme == Order[r.index]
    ensures v.theme == Order[v.index] ==> r.theme == Successor(v.theme)
    ensures r.stored == Some(Name(r.theme))
    ensures Consistent(v) ==> Consistent(r)
  {
    var i := NextIndex(v.index);
    var t := Order[i];
    UpdateTheme(v.(index := i, theme := t), t).(stored := Some(Name(t)))
  }

  /**
   The body of the interval callback as far as the state is concerned: when
   the theme is no longer christmas it clears the snowflakes, otherwise it
   only adds a particle (which the view does not record).
   */
  function Tick(v: View): (r: View)
    requires v.interval
    ensures v.theme != Christmas ==> !r.interval && !r.container && r.audio == v.audio
    ensures v.theme == Christmas ==> r == v
    ensures Consistent(v) ==> Consistent(r)
  {
    if v.theme != Christmas then ClearSnowflakes(v) else v
  }

  /** `ngOnDestroy`: drop the audio and clear the snowflakes, whatever the state. */
  function Destroy(v: View): (r: View)
    ensures Idle(r)
    ensures r.index == v.index && r.theme == v.theme && r.icon == v.icon
    ensures r.attribute == v.attribute && r.stored == v.stored
  {
    ClearSnowflakes(v.(audio := false))
  }

  /** The state after `n` presses of the toggle. */
  function Toggles(v: View, n: nat): (r: View)
    requires 0 <= v.index < |Order|
    ensures 0 <= r.index < |Order|
  {
    if n == 0 then v else Toggle(Toggles(v, n - 1))
  }

  /** The user-visible events after initialisation. */
  datatype Event =
    | ToggleClick  // a press of the toggle button
    | TimerTick    // one firing of the snowflake interval

  /** One event; a cleared interval fires no more ticks. */
  function Step(v: View, e: Event): (r: View)
    requires 0 <= v.index < |Order|
    ensures 0 <= r.index < |Order|
  {
    match e
    case ToggleClick => Toggle(v)
    case TimerTick => if v.interval then Tick(v) else v
  }

  /** The state after a sequence of events. */
  function Run(v: View, events: seq<Event>): (r: View)
    requires 0 <= v.index < |Order|
    ensures 0 <= r.index < |Order|
    decreases |events|
  {
    if events == [] then v else Run(Step(v, events[0]), events[1..])
  }

  /** `clearSnowflakes` may be repeated without effect. */
  lemma ClearSnowflakesIdempotent(v: View)
    ensures ClearSnowflakes(ClearSnowflakes(v)) == ClearSnowflakes(v)
    ensures !v.interval && !v.container ==> ClearSnowflakes(v) == v
  {
  }

  /** `ngOnDestroy` is safe on an idle component and may be repeated. */
  lemma DestroyIdempotent(v: View)
    ensures Idle(v) ==> Destroy(v) == v
    ensures Destroy(Destroy(v)) == Destroy(v)
  {
  }

  /**
   In a consistent state `playChristmasMusic` starts nothing new while the
   music plays: no second audio handle, no second interval.
   */
  lemma PlayWhilePlayingIsNoOp(v: View)
    requires Consistent(v) && v.theme == Christmas
    ensures PlayChristmasMusic(v) == v
  {
  }

  /**
   Why toggling into christmas always restarts the effect: the only theme
   that toggles into christmas is light, and a consistent light state has no
   audio handle, so `playChristmasMusic` is not skipped.
   */
  lemma EnteringChristmasStartsSession(v: View)
    requires Consistent(v)
    requires Toggle(v).theme == Christmas
    ensures v.theme == Light && !v.audio
    ensures Active(Toggle(v))
  {
  }

  /**
   The guard of `playChristmasMusic` is the audio handle, not the interval:
   applying christmas while the music already plays clears the snowflakes
   and does not restart them.
   */
  lemma ReapplyingChristmasLosesSnow(v: View)
    requires v.audio
    ensures UpdateTheme(v, Christmas).audio
    ensures !UpdateTheme(v, Christmas).interval && !UpdateTheme(v, Christmas).container
  {
  }

  /** Without a valid saved theme, start-up never picks christmas. */
  lemma NoSavedThemeNeverChristmas(v: View, prefersDark: bool)
    requires Parse(v.stored).None?
    ensures Init(v, prefersDark).theme != Christmas
    ensures Init(v, prefersDark).index == (if prefersDark then 0 else 1)
    ensures !v.audio ==> Idle(Init(v, prefersDark))
  {
  }

  /**
   Round trip through storage: after a toggle, initialising any fresh
   component that reads the saved value gives the same theme and index,
   whatever the system signal says.
   */
  lemma ToggleThenReload(v: View, start: View, prefersDark: bool)
    requires 0 <= v.index < |Order|
    ensures Init(start.(stored := Toggle(v).stored), prefersDark).theme == Toggle(v).theme
    ensures Init(start.(stored := Toggle(v).stored), prefersDark).index == Toggle(v).index
  {
    var t := Toggle(v).theme;
    assert Parse(Some(Name(t))) == Some(t);
    assert IndexOf(t) == Toggle(v).index;
  }

  /** One more press: `n + 1` presses are one press after `n`. */
  lemma TogglesUnfold(v: View, n: nat)
    requires 0 <= v.index < |Order|
    ensures Toggles(v, n + 1) == Toggle(Toggles(v, n))
  {
  }

  /**
   Pressing the toggle `n` times keeps a consistent state consistent and
   moves the index as `n` steps of `NextIndex` do.
   */
  lemma {:induction false} TogglesCycle(v: View, n: nat)
    requires Consistent(v)
    ensures Consistent(Toggles(v, n))
    ensures Toggles(v, n).index == IndexAfter(v.index, n)
  {
    if n > 0 {
      var m := n - 1;
      TogglesCycle(v, m);
      TogglesUnfold(v, m);
    }
  }

  /** Three presses of the toggle, or any multiple of three, return to the starting theme. */
  lemma TogglesPeriod(v: View, n: nat)
    requires Consistent(v) && n % 3 == 0
    ensures Toggles(v, n).theme == v.theme && Toggles(v, n).index == v.index
  {
    TogglesCycle(v, n);
    IndexAfterShift(v.index, n);
    ModMultiple(v.index, n);
  }

  /** Every sequence of toggles and ticks keeps a consistent state consistent. */
  lemma {:induction false} RunKeepsConsistent(v: View, events: seq<Event>)
    requires Consistent(v)
    ensures Consistent(Run(v, events))
    decreases |events|
  {
    if events != [] {
      RunKeepsConsistent(Step(v, events[0]), events[1..]);
    }
  }

  /**
   The effect session exists exactly while the theme is christmas at every
   point of the component's life: after `ngOnInit` on a new component and
   after any later toggles and ticks.
   */
  lemma SessionMatchesTheme(start: View, prefersDark: bool, events: seq<Event>)
    requires !start.audio
    ensures Consistent(Run(Init(start, prefersDark), events))
    ensures Run(Init(start, prefersDark), events).audio <==>
            Run(Init(start, prefersDark), events).theme == Christmas
  {
    RunKeepsConsistent(Init(start, prefersDark), events);
  }
}
