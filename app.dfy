/**
 The app component as a class whose fields mirror the component's fields,
 and the part of the browser it touches (the root element's `data-theme`
 attribute, the snowflake overlay, and the saved preference) as a second
 class. Every method is proved to follow its function in `Controller`.
 */
module App {
  import opened Wrappers
  import opened Themes
  import Controller

  /** An audio element: source, looping flag and volume. */
  datatype Audio = Audio(src: string, looping: bool, volume: real)

  /** The background track, looping at 5% volume. */
  const ChristmasTrack := Audio("/assets/audio/christmasbgmusic.mp3", true, 0.05)

  /** A repeating timer and its period in milliseconds. */
  datatype Interval = Interval(periodMs: nat)

  /** The snowflake timer: one particle every 300 ms. */
  const SnowInterval := Interval(300)

  /** No particle id occurs twice: each names one element. */
  predicate Distinct(s: seq<nat>)
  {
    forall i, j :: 0 <= i < j < |s| ==> s[i] != s[j]
  }

  /** `s` without the particle `id`, in the same order. */
  function Without(s: seq<nat>, id: nat): (r: seq<nat>)
    ensures id !in r
    ensures forall x :: x in r <==> x in s && x != id
    ensures |r| <= |s|
    ensures id !in s ==> r == s
    ensures Distinct(s) ==> Distinct(r)
    ensures Distinct(s) && id in s ==> |r| == |s| - 1
  {
    if s == [] then []
    else if s[0] == id then Without(s[1..], id)
    else
      var rest := Without(s[1..], id);
      DistinctCons(s[0], rest);
      [s[0]] + rest
  }

  /** Putting a new id in front keeps the ids distinct. */
  lemma DistinctCons(x: nat, t: seq<nat>)
    ensures Distinct(t) && x !in t ==> Distinct([x] + t)
  {
    if Distinct(t) && x !in t {
      forall i, j | 0 <= i < j < |[x] + t|
        ensures ([x] + t)[i] != ([x] + t)[j]
      {
        if i == 0 {
          assert ([x] + t)[j] == t[j - 1];
        }
      }
    }
  }

  /** Appending a new id keeps the ids distinct. */
  lemma DistinctSnoc(t: seq<nat>, x: nat)
    ensures Distinct(t) && x !in t ==> Distinct(t + [x])
  {
    if Distinct(t) && x !in t {
      forall i, j | 0 <= i < j < |t + [x]|
        ensures (t + [x])[i] != (t + [x])[j]
      {
        if j == |t| {
          assert (t + [x])[i] == t[i];
        }
      }
    }
  }

  /**
   The page: the `data-theme` attribute on the root element, the overlay
   with id "snowflakes" (present or not, and the particles in it), the
   "theme" entry of local storage, and a counter that names each new
   particle element.
   */
  class Page {
    var dataTheme: Option<string>
    var snowflakes: Option<seq<nat>>
    var storedTheme: Option<string>
    var nextParticle: nat

    /**
     Every particle in the overlay was named by the counter before, and no
     two particles share a name.
     */
    ghost predicate Valid()
      reads this
    {
      snowflakes.Some? ==>
        Distinct(snowflakes.value) &&
        forall x :: x in snowflakes.value ==> x < nextParticle
    }

    /** A page with no attribute and no overlay, and `saved` in storage. */
    constructor (saved: Option<string>)
      ensures Valid()
      ensures dataTheme == None && snowflakes == None
      ensures storedTheme == saved && nextParticle == 0
    {
      dataTheme := None;
      snowflakes := None;
      storedTheme := saved;
      nextParticle := 0;
    }

    /**
     The one-shot removal of a particle when its animation ends. It takes
     the particle out of the overlay if it is there and is harmless when the
     overlay has already been removed.
     */
    method RemoveParticle(id: nat)
      requires Valid()
      modifies this`snowflakes
      ensures Valid()
      ensures old(snowflakes).None? ==> snowflakes == None
      ensures old(snowflakes).Some? ==> snowflakes == Some(Without(old(snowflakes).value, id))
      ensures old(snowflakes).Some? && id in old(snowflakes).value ==>
        |snowflakes.value| == |old(snowflakes).value| - 1
    {
      if snowflakes.Some? {
        snowflakes := Some(Without(snowflakes.value, id));
      }
    }
  }

  class AppComponent {
    const page: Page
    var currentThemeIndex: int
    var currentTheme: Theme
    var currentIcon: string
    var audio: Option<Audio>
    var snowflakesInterval: Option<Interval>

    /**
     What holds between calls: the page's particles are well named, the
     index is in range and names the theme, and any audio handle or interval
     is the one the component creates.
     */
    ghost predicate Valid()
      reads this, page
    {
      page.Valid() &&
      0 <= currentThemeIndex < |Order| &&
      currentTheme == Order[currentThemeIndex] &&
      (audio.Some? ==> audio.value == ChristmasTrack) &&
      (snowflakesInterval.Some? ==> snowflakesInterval.value == SnowInterval)
    }

    /** The abstract state the `Controller` functions describe. */
    function View(): Controller.View
      reads this, page
    {
      Controller.View(currentThemeIndex, currentTheme, currentIcon, page.dataTheme,
                      audio.Some?, snowflakesInterval.Some?, page.snowflakes.Some?,
                      page.storedTheme)
    }

    /** Field initialisers: index 0, dark, its icon, no music, no timer. */
    constructor (page: Page)
      requires page.Valid()
      ensures Valid() && this.page == page
      ensures currentThemeIndex == 0 && currentTheme == Dark && currentIcon == Icon(Dark)
      ensures audio == None && snowflakesInterval == None
    {
      this.page := page;
      currentThemeIndex := 0;
      currentTheme := Order[0];
      currentIcon := Icon(Order[0]);
      audio := None;
      snowflakesInterval := None;
    }

    /**
     `ngOnInit`: reads the saved preference from storage and, failing that,
     the system light/dark signal given as `prefersDark`.
     */
    method NgOnInit(prefersDark: bool)
      requires Valid()
      modifies this, page
      ensures Valid()
      ensures View() == Controller.Init(old(View()), prefersDark)
      ensures page.nextParticle == old(page.nextParticle)
      ensures page.snowflakes.Some? ==> page.snowflakes == Some([])
    {
      var saved := Parse(page.storedTheme);
      if saved.Some? {
        currentTheme := saved.value;
        currentThemeIndex := IndexOf(saved.value);
        UpdateTheme(currentTheme);
      } else {
        currentTheme := if prefersDark then Dark else Light;
        currentThemeIndex := if prefersDark then 0 else 1;
        UpdateTheme(currentTheme);
      }
    }

    /** `ngOnDestroy`: stops the music and clears the snowflakes. */
    method NgOnDestroy()
      requires Valid()
      modifies this, page
      ensures Valid()
      ensures View() == Controller.Destroy(old(View()))
      ensures audio == None && snowflakesInterval == None && page.snowflakes == None
      ensures page.nextParticle == old(page.nextParticle)
    {
      if audio.Some? {
        audio := None;
      }
      ClearSnowflakes();
    }

    /** `toggleTheme`: next theme in the cycle, applied and saved. */
    method ToggleTheme()
      requires Valid()
      modifies this, page
      ensures Valid()
      ensures View() == Controller.Toggle(old(View()))
      ensures page.nextParticle == old(page.nextParticle)
      ensures page.snowflakes.Some? ==> page.snowflakes == Some([])
    {
      currentThemeIndex := NextIndex(currentThemeIndex);
      currentTheme := Order[currentThemeIndex];
      UpdateTheme(currentTheme);
      page.storedTheme := Some(Name(currentTheme));
    }

    /** `updateTheme` (private): icon, attribute, then the seasonal effect. */
    method UpdateTheme(theme: Theme)
      requires Valid()
      modifies this, page
      ensures Valid()
      ensures View() == Controller.UpdateTheme(old(View()), theme)
      ensures page.nextParticle == old(page.nextParticle)
      ensures page.snowflakes.Some? ==> page.snowflakes == Some([])
    {
      currentIcon := Icon(theme);
      page.dataTheme := Some(Name(theme));
      ClearSnowflakes();
      if theme == Christmas {
        PlayChristmasMusic();
      } else {
        if audio.Some? {
          audio := None;
        }
      }
    }

    /**
     `playChristmasMusic` (private): when no audio handle exists, create the
     looping low-volume track and start the snowflakes; otherwise nothing.
     */
    method PlayChristmasMusic()
      requires Valid()
      modifies this, page
      ensures Valid()
      ensures View() == Controller.PlayChristmasMusic(old(View()))
      ensures old(audio).Some? ==> audio == old(audio) && snowflakesInterval == old(snowflakesInterval)
      ensures old(audio).Some? ==> page.snowflakes == old(page.snowflakes)
      ensures old(audio).None? && old(page.snowflakes).None? ==> page.snowflakes == Some([])
      ensures old(audio).None? && old(page.snowflakes).Some? ==> page.snowflakes == old(page.snowflakes)
      ensures page.nextParticle == old(page.nextParticle)
    {
      if audio.None? {
        audio := Some(ChristmasTrack);
        CreateSnowflakes();
      }
    }

    /**
     `createSnowflakes` (private): reuse the overlay if one is attached,
     else attach an empty one; then start the 300 ms interval.
     */
    method CreateSnowflakes()
      requires Valid()
      modifies this, page
      ensures Valid()
      ensures View() == Controller.CreateSnowflakes(old(View()))
      ensures snowflakesInterval == Some(SnowInterval)
      ensures page.snowflakes == if old(page.snowflakes).Some? then old(page.snowflakes) else Some([])
      ensures page.nextParticle == old(page.nextParticle)
    {
      if page.snowflakes.None? {
        page.snowflakes := Some([]);
      }
      snowflakesInterval := Some(SnowInterval);
    }

    /** `clearSnowflakes` (private): cancel the interval, remove the overlay. */
    method ClearSnowflakes()
      requires Valid()
      modifies this, page
      ensures Valid()
      ensures View() == Controller.ClearSnowflakes(old(View()))
      ensures snowflakesInterval == None && page.snowflakes == None
      ensures page.nextParticle == old(page.nextParticle)
    {
      if snowflakesInterval.Some? {
        snowflakesInterval := None;
      }
      if page.snowflakes.Some? {
        page.snowflakes := None;
      }
    }

    /**
     One firing of the snowflake interval (it only fires while registered).
     Off christmas it clears the snowflakes and spawns nothing; on christmas
     it appends exactly one new particle to the overlay and changes nothing
     else.
     */
    method Tick()
      requires Valid() && snowflakesInterval.Some?
      modifies this, page
      ensures Valid()
      ensures View() == Controller.Tick(old(View()))
      ensures old(page.snowflakes).Some? ==> old(page.nextParticle) !in old(page.snowflakes).value
      ensures old(currentTheme) != Christmas ==> page.nextParticle == old(page.nextParticle)
      ensures old(currentTheme) == Christmas ==>
        page.nextParticle == old(page.nextParticle) + 1 &&
        page.snowflakes == if old(page.snowflakes).Some?
                           then Some(old(page.snowflakes).value + [old(page.nextParticle)])
                           else old(page.snowflakes)
    {
      if currentTheme != Christmas {
        ClearSnowflakes();
        return;
      }
      var flake := page.nextParticle;
      page.nextParticle := page.nextParticle + 1;
      if page.snowflakes.Some? {
        DistinctSnoc(page.snowflakes.value, flake);
        page.snowflakes := Some(page.snowflakes.value + [flake]);
      }
    }
  }

  /**
   Reload after a toggle: a second component on the same page, whatever the
   system signal then says, starts in the theme the first one saved.
   */
  method ReloadKeepsTheme(saved: Option<string>, prefersDark: bool, prefersDarkLater: bool)
    returns (before: Theme, after: Theme, consistent: bool)
    ensures after == before
    ensures consistent
  {
    var page := new Page(saved);
    var first := new AppComponent(page);
    first.NgOnInit(prefersDark);
    first.ToggleTheme();
    before := first.currentTheme;
    first.NgOnDestroy();
    var second := new AppComponent(page);
    second.NgOnInit(prefersDarkLater);
    after := second.currentTheme;
    consistent := Controller.Consistent(second.View());
  }

  /**
   Start-up without a saved theme on a dark system, then light to christmas
   to dark: the effect starts on entering christmas and is gone, with the
   attribute back at "dark", after the next press.
   */
  method LightChristmasDark()
    returns (initial: Theme, icon: string, sessionAtStart: bool,
             sessionInChristmas: bool, sessionAfter: bool, attribute: Option<string>)
    ensures initial == Dark && icon == "dark_mode" && !sessionAtStart
    ensures sessionInChristmas && !sessionAfter
    ensures attribute == Some("dark")
  {
    var page := new Page(None);
    var c := new AppComponent(page);
    c.NgOnInit(true);
    initial, icon := c.currentTheme, c.currentIcon;
    sessionAtStart := c.audio.Some? || c.snowflakesInterval.Some? || page.snowflakes.Some?;
    c.ToggleTheme();
    c.ToggleTheme();
    sessionInChristmas := c.audio.Some? && c.snowflakesInterval.Some? && page.snowflakes.Some?;
    c.ToggleTheme();
    sessionAfter := c.audio.Some? || c.snowflakesInterval.Some? || page.snowflakes.Some?;
    attribute := page.dataTheme;
  }
}
