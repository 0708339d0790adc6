/**
 * Terminal styling as the `ansi_term` crate performs it: a style is a foreground colour
 * plus other attributes (bold, background, ...), and painting a string with a non-plain
 * style wraps it in a Select Graphic Rendition escape and a reset. The exact parameter
 * numbers are data carried by the style; only the wrapping is modelled.
 */
module Ansi {
  import opened Wrappers

  /** A colour, reduced to the SGR parameter it emits as a foreground (`35` for magenta). */
  datatype Colour = Colour(code: string)

  /** `ansi_term::Style`: the foreground, and the SGR parameters of every other attribute
      ("" when there are none). */
  datatype Style = Style(foreground: Option<Colour>, attributes: string)

  /** `Style::default()`, which paints nothing. */
  const Plain: Style := Style(None, "")

  const Escape: string := "\U{1B}["
  const Reset: string := "\U{1B}[0m"

  predicate IsPlain(st: Style)
  {
    st.foreground.None? && st.attributes == ""
  }

  /** The SGR parameters a style emits: its attributes, then its foreground. */
  function Parameters(st: Style): string
  {
    match st.foreground
    case None => st.attributes
    case Some(c) => if st.attributes == "" then c.code else st.attributes + ";" + c.code
  }

  /** `style.paint(s).to_string()`: `s` itself for a plain style, otherwise `s` between the
      style's escape and a reset. */
  function Paint(st: Style, s: string): (r: string)
    ensures IsPlain(st) ==> r == s
    ensures !IsPlain(st) ==> |r| == |s| + |Escape| + |Parameters(st)| + 1 + |Reset|
    ensures r[|r| - |s| - (if IsPlain(st) then 0 else |Reset|)..|r| - (if IsPlain(st) then 0 else |Reset|)] == s
  {
    if IsPlain(st) then s else Escape + Parameters(st) + "m" + s + Reset
  }

  /** `colour.paint(s)`: painting with a style that has only a foreground. */
  function PaintColour(c: Colour, s: string): string
  {
    Paint(Style(Some(c), ""), s)
  }

  /** The text a painted string shows, recovered from the painted string. */
  function Unpaint(st: Style, painted: string): string
  {
    if IsPlain(st) then painted
    else if |painted| < |Escape| + |Parameters(st)| + 1 + |Reset| then painted
    else painted[|Escape| + |Parameters(st)| + 1..|painted| - |Reset|]
  }

  /** Painting never loses the text: unpainting with the same style gives it back. */
  lemma UnpaintPaint(st: Style, s: string)
    ensures Unpaint(st, Paint(st, s)) == s
  {
    if !IsPlain(st) {
      var pre := Escape + Parameters(st) + "m";
      assert Paint(st, s) == pre + s + Reset;
      assert |pre| == |Escape| + |Parameters(st)| + 1;
      assert (pre + s + Reset)[|pre|..|pre| + |s|] == s;
    }
  }
}
