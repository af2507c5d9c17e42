# Theme toggle of the portfolio app component

This project models the theme and seasonal-effect state machine of the
portfolio site's root component (`AppComponent`). The component cycles
through three themes (dark, light, christmas). It shows an icon per theme,
writes the theme name to the `data-theme` attribute of the root element and
saves it in local storage. While the christmas theme is active it plays
looping background music and spawns falling snowflakes from a 300 ms timer.

The model has three modules over a small `Wrappers` module (`Option`):

- `Themes`: the fixed tables (`themes`, `themeIcons`, theme names), reading a
  saved value (`themes.includes` / `indexOf`) and the index step of the toggle.
- `Controller`: the state machine as pure functions on an abstract `View`
  (index, theme, icon, attribute, whether audio, interval and overlay exist,
  the saved value). There is one function per method of the component, and
  the invariant `Consistent` says that the tables agree and that an effect
  session (music, timer and overlay) exists exactly while the theme is
  christmas. The lemmas prove the cycle order, the storage round trip and
  that every sequence of toggles and timer ticks after start-up keeps the
  invariant.
- `App`: the component as a class whose fields mirror the source's
  (`currentThemeIndex`, `currentTheme`, `currentIcon`, `audio`,
  `snowflakesInterval`). A `Page` class holds the browser state the
  component touches: the root attribute, the "snowflakes" overlay with the
  ids of its particles, and the saved "theme" entry. Every method is proved
  to follow its `Controller` function (`View() == Controller.F(old(View()))`).

The system's light/dark preference (`matchMedia`) is the `prefersDark`
parameter of `NgOnInit`. Local storage is the field `Page.storedTheme`.

Why the invariant holds is not obvious. `updateTheme` always clears the
snowflakes, but `playChristmasMusic` restarts them only when no audio handle
exists. Toggling into christmas always comes from light, and a consistent
light state has no audio, so the effect always restarts
(`Controller.EnteringChristmasStartsSession`). Applying christmas while the
music already plays would leave music without snow
(`Controller.ReapplyingChristmasLosesSnow`). This is reachable only by calling
`ngOnInit` a second time on a live component, which Angular never does. So
`Controller.Init` promises consistency only for a component without audio.
An explicit idle/active flag would make a second start harmless. The code
guards on the audio handle only, and the model follows the code.

## Model

| member | source | states |
|---|---|---|
| Themes.IndexOf | src/app/app.component.ts:29-31 | the index found for a theme is in range and the `themes` table holds that theme there |
| Themes.Parse | src/app/app.component.ts:28-29 | a saved value is accepted exactly when it is the name of a theme, and then gives that theme |
| Themes.OrderListsEachThemeOnce | src/app/app.component.ts:13 | the `themes` list has three entries, holds every theme exactly once, and each entry is followed by its successor in the cycle |
| Themes.NameAndIconIdentifyTheme | src/app/app.component.ts:16-20 | no two themes share a stored name or an icon from the `themeIcons` table |
| Themes.NextIndex | src/app/app.component.ts:52-53 | the next index stays in [0,3) and names the successor in the cycle dark, light, christmas, dark |
| Themes.IndexAfterShift | src/app/app.component.ts:52 | n presses of the toggle move the index from i to (i + n) mod 3 |
| Controller.PlayChristmasMusic | src/app/app.component.ts:145-158 | no change when an audio handle exists; otherwise a full session (audio, interval, overlay) is started, theme fields untouched |
| Controller.CreateSnowflakes | src/app/app.component.ts:78-83 | the overlay and the interval exist afterwards, and music, theme fields, attribute and storage are untouched |
| Controller.ClearSnowflakes | src/app/app.component.ts:133-143 | neither interval nor overlay exists afterwards, and music, theme fields, attribute and storage are untouched |
| Controller.UpdateTheme | src/app/app.component.ts:59-76 | icon and attribute follow the theme; a non-christmas theme leaves no audio, interval or overlay; christmas keeps audio and yields a full session exactly when there was no audio before |
| Controller.InitialTheme | src/app/app.component.ts:28-37 | a valid saved theme wins; otherwise dark exactly when the system prefers dark, never christmas |
| Controller.Init | src/app/app.component.ts:26-40 | start-up picks the initial theme, keeps storage, and leaves a consistent state on a component without music |
| Controller.Toggle | src/app/app.component.ts:51-57 | the index advances by one modulo 3, the theme is the table entry and the successor of the old one, its name is saved, and consistency is preserved |
| Controller.Tick | src/app/app.component.ts:83-87 | off christmas the tick removes interval and overlay and keeps audio; on christmas the state is unchanged; consistency is preserved |
| Controller.Destroy | src/app/app.component.ts:42-49 | teardown leaves no audio, interval or overlay and keeps theme, icon, attribute and storage |
| Controller.ClearSnowflakesIdempotent | src/app/app.component.ts:133-143 | clearing twice equals clearing once, and clearing an idle state changes nothing |
| Controller.DestroyIdempotent | src/app/app.component.ts:42-49 | teardown is a no-op on an idle component and may be repeated |
| Controller.PlayWhilePlayingIsNoOp | src/app/app.component.ts:146 | in a consistent christmas state starting the music creates no second audio handle or interval |
| Controller.EnteringChristmasStartsSession | src/app/app.component.ts:51-76 | a toggle into christmas comes from light without audio and ends with a full session |
| Controller.ReapplyingChristmasLosesSnow | src/app/app.component.ts:59-76 | applying christmas while audio exists keeps the audio but clears the interval and the overlay |
| Controller.NoSavedThemeNeverChristmas | src/app/app.component.ts:33-39 | without a valid saved value start-up gives index 0 or 1, never christmas, and no effect session |
| Controller.ToggleThenReload | src/app/app.component.ts:28-56 | the value a toggle saves makes a later start-up reproduce the same theme and index, whatever the system signal |
| Controller.TogglesCycle | src/app/app.component.ts:51-53 | n toggles keep a consistent state consistent and move the index as n steps of the index update do |
| Controller.TogglesPeriod | src/app/app.component.ts:51-53 | any multiple of three toggles returns to the starting theme and index |
| Controller.RunKeepsConsistent | src/app/app.component.ts:51-87 | any sequence of toggles and timer ticks keeps a consistent state consistent |
| Controller.SessionMatchesTheme | src/app/app.component.ts:26-87 | after start-up and any later toggles and ticks, audio exists exactly when the theme is christmas |
| App.Without | src/app/app.component.ts:112-114 | removing a particle leaves every other particle, drops that one, changes nothing when it is absent, and on distinct ids removes exactly one element |
| App.Page.RemoveParticle | src/app/app.component.ts:112-114 | a particle's expiry removes that one element from the overlay, keeps the ids distinct, and is a no-op once the overlay is gone |
| App.AppComponent.constructor | src/app/app.component.ts:12-24 | a new component has index 0, dark, the dark icon, no audio and no interval |
| App.AppComponent.NgOnInit | src/app/app.component.ts:26-40 | the new state is `Controller.Init` of the old one, reading storage and the system signal; an overlay left after start-up is a fresh empty one |
| App.AppComponent.NgOnDestroy | src/app/app.component.ts:42-49 | the new state is `Controller.Destroy` of the old one: no audio, interval or overlay |
| App.AppComponent.ToggleTheme | src/app/app.component.ts:51-57 | the new state is `Controller.Toggle` of the old one, including the saved value; entering christmas attaches a fresh empty overlay |
| App.AppComponent.UpdateTheme | src/app/app.component.ts:59-76 | the new state is `Controller.UpdateTheme` of the old one; the old overlay is always removed, so any overlay afterwards is empty |
| App.AppComponent.PlayChristmasMusic | src/app/app.component.ts:145-158 | follows `Controller.PlayChristmasMusic`; with audio present the handle, the interval and the overlay with its particles are unchanged; otherwise an attached overlay is reused with its particles and a missing one is attached empty |
| App.AppComponent.CreateSnowflakes | src/app/app.component.ts:78-83 | an attached overlay is reused, otherwise an empty one is attached; the 300 ms interval is set |
| App.AppComponent.ClearSnowflakes | src/app/app.component.ts:133-143 | afterwards there is no interval and no overlay, everything else is unchanged |
| App.AppComponent.Tick | src/app/app.component.ts:83-116 | off christmas it clears and spawns nothing; on christmas it appends exactly one particle whose id is new to the overlay and changes nothing else |
| App.ReloadKeepsTheme | src/app/app.component.ts:28-56 | a second component on the same page starts in the theme the first saved, in a consistent state |
| App.LightChristmasDark | src/app/app.component.ts:26-76 | no saved theme on a dark system gives dark with its icon and no session; light to christmas starts the session; christmas to dark ends it with attribute "dark" |

## Left out

- DOM construction and styling of the overlay and of each particle (element creation, style strings, z-index): presentation only; the overlay is an optional list of particle ids.
- Random size, opacity, position and duration of particles: floating point and randomness with nothing to verify.
- Timer scheduling: the interval's firings are the `Tick` method, callable while the interval is registered; a particle's one-shot removal is `Page.RemoveParticle`, callable at any time.
- Audio playback and its rejected promise: only the handle (source, loop flag, volume) is modelled; whether playback succeeds does not affect the state.
- The component's cached reference to the overlay: ticks append to the attached overlay. Interval and overlay are created and removed together, so no tick runs while that reference points at a removed overlay.
- Timer identity: an interval handle is present or absent. A second `setInterval` over a live one would leak a timer; the model only shows this as the handle being replaced, and this never happens after the clearing in `updateTheme`.
- Local storage failures: `getItem` and `setItem` are called without a guard, so a throwing storage would stop `ngOnInit` before any theme is applied, or end `toggleTheme` with the theme applied but not saved; in the model storage never fails.
- The `title` field and the Angular decorator, template and stylesheet metadata: framework glue.
- Controller.Init: consistency is promised only when no audio handle exists beforehand, which is how Angular calls `ngOnInit`; `Controller.ReapplyingChristmasLosesSnow` states what happens otherwise.
