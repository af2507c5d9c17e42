/**
 The fixed tables of the theme toggle: the ordered `themes` list, the
 `themeIcons` map, the names written to storage and to the `data-theme`
 attribute, and the index arithmetic of the toggle.
 */
module Themes {
  import opened Wrappers

  /** The three themes. */
  datatype Theme = Dark | Light | Christmas

  /** The `themes` list: the theme with index `i` is `Order[i]`. */
  const Order: seq<Theme> := [Dark, Light, Christmas]

  /** The `themes` list holds every theme exactly once, in toggle order. */
  lemma OrderListsEachThemeOnce()
    ensures |Order| == 3
    ensures forall t: Theme :: t in Order
    ensures forall i, j :: 0 <= i < j < |Order| ==> Order[i] != Order[j]
    ensures forall i :: 0 <= i < |Order| - 1 ==> Order[i + 1] == Successor(Order[i])
  {
    forall t: Theme
      ensures t in Order
    {
      assert Order[IndexOf(t)] == t;
    }
  }

  /** The name of a theme, as stored and as written to `data-theme`. */
  function Name(t: Theme): string
  {
    match t
    case Dark => "dark"
    case Light => "light"
    case Christmas => "christmas"
  }

  /** The `themeIcons` table: the icon shown on the toggle button. */
  function Icon(t: Theme): string
  {
    match t
    case Dark => "dark_mode"
    case Light => "light_mode"
    case Christmas => "ac_unit"
  }

  /** The stored name and the icon each identify the theme. */
  lemma NameAndIconIdentifyTheme(a: Theme, b: Theme)
    ensures Name(a) == Name(b) ==> a == b
    ensures Icon(a) == Icon(b) ==> a == b
  {
  }

  /** The theme that follows `t` in the cycle dark, light, christmas, dark. */
  function Successor(t: Theme): Theme
  {
    match t
    case Dark => Light
    case Light => Christmas
    case Christmas => Dark
  }

  /** `themes.indexOf(t)`: the position of a theme in `Order`. */
  function IndexOf(t: Theme): (i: nat)
    ensures i < |Order| && Order[i] == t
  {
    match t
    case Dark => 0
    case Light => 1
    case Christmas => 2
  }

  /**
   Reads a saved preference: the truthiness test and `themes.includes`.
   A value is accepted exactly when it is the name of a theme.
   */
  function Parse(saved: Option<string>): (r: Option<Theme>)
    ensures r.Some? ==> saved == Some(Name(r.value))
    ensures forall t :: saved == Some(Name(t)) ==> r == Some(t)
  {
    match saved
    case None => None
    case Some(s) =>
      if s == "dark" then Some(Dark)
      else if s == "light" then Some(Light)
      else if s == "christmas" then Some(Christmas)
      else None
  }

  /** The index after one press of the toggle: `(i + 1) % themes.length`. */
  function NextIndex(i: int): (j: int)
    requires 0 <= i < |Order|
    ensures 0 <= j < |Order|
    ensures Order[j] == Successor(Order[i])
  {
    (i + 1) % 3
  }

  /** The index after `n` presses of the toggle. */
  function IndexAfter(i: int, n: nat): (j: int)
    requires 0 <= i < |Order|
    ensures 0 <= j < |Order|
  {
    if n == 0 then i else NextIndex(IndexAfter(i, n - 1))
  }

  /** `n` presses move the index by `n` modulo 3. */
  lemma {:induction false} IndexAfterShift(i: int, n: nat)
    requires 0 <= i < |Order|
    ensures IndexAfter(i, n) == (i + n) % 3
  {
    if n > 0 {
      IndexAfterShift(i, n - 1);
      ModStep(i + n - 1);
    }
  }

  /** One step of the index arithmetic: ((k % 3) + 1) % 3 == (k + 1) % 3. */
  lemma ModStep(k: nat)
    ensures (k % 3 + 1) % 3 == (k + 1) % 3
  {
  }

  /** Adding a multiple of 3 to an index in range gives the same index. */
  lemma ModMultiple(i: int, n: nat)
    requires 0 <= i < |Order| && n % 3 == 0
    ensures (i + n) % 3 == i
  {
  }

}
