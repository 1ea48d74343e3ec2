/** The theme kept in the application settings (`config::Theme`), the one the header's
    theme button switches. */
module ConfigThemes {

  datatype Theme = Light | Dark

  /** `Theme::name`. */
  function Name(t: Theme): (r: string)
    ensures r == "Light" <==> t == Light
    ensures r == "Dark" <==> t == Dark
  {
    match t
    case Light => "Light"
    case Dark => "Dark"
  }

  /** `Theme::next`: the other theme, never the same one. */
  function Next(t: Theme): (r: Theme)
    ensures r != t
  {
    match t
    case Light => Dark
    case Dark => Light
  }

  /** `next` is an involution. */
  lemma NextInvolution(t: Theme)
    ensures Next(Next(t)) == t
  {
  }

  /** `next` is a bijection on the two themes: it hits each one exactly once. */
  lemma NextBijective(a: Theme, b: Theme)
    ensures Next(a) == Next(b) <==> a == b
    ensures exists s :: Next(s) == b
  {
    assert Next(Next(b)) == b;
  }
}
