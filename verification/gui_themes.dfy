/** The GUI's colour theme, `Theme` of the egui front-end. */
module GuiThemes {

  datatype Theme = Light | Dark

  /** `Theme::name`: the label shown for the theme. */
  function Name(t: Theme): (r: string)
    ensures r == "Light" <==> t == Light
    ensures r == "Dark" <==> t == Dark
  {
    match t
    case Light => "Light"
    case Dark => "Dark"
  }

  /** `Theme::next`: the other theme. */
  function Next(t: Theme): (r: Theme)
    ensures r != t
  {
    match t
    case Light => Dark
    case Dark => Light
  }

  /** `Default for Theme`. */
  function Default(): (r: Theme)
    ensures Name(r) == "Light"
  {
    Light
  }

  /** Toggling twice gives the theme back. */
  lemma NextInvolution(t: Theme)
    ensures Next(Next(t)) == t
  {
  }

  /** Different themes have different names, and the name changes with every toggle. */
  lemma NameInjective(a: Theme, b: Theme)
    ensures Name(a) == Name(b) <==> a == b
    ensures Name(Next(a)) != Name(a)
  {
  }
}
