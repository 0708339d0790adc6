/**
 * The styling helpers of src/render/tree/node/style.rs. The styles are optional: `None`
 * stands for an `LS_COLORS` entry that is missing, or a theme that was never initialised.
 * The permission bits arrive already rendered (`mode_text`, the `Display` of a `FileMode`)
 * or as the number its octal formatting prints.
 */
module NodeStyle {
  import opened Wrappers
  import opened Ansi

  /** `stylize`: the name painted with the style, or unchanged without one. */
  function Stylize(name: string, style: Option<Style>): (r: string)
    ensures style.None? ==> r == name
    ensures style.Some? ==> Unpaint(style.value, r) == name
  {
    match style
    case None => name
    case Some(st) =>
      UnpaintPaint(st, name);
      Paint(st, name)
  }

  /** `stylize_link_name`: `link -> target`, both halves painted when the link has a style,
      and neither painted when it has none, whatever the target's style. */
  function StylizeLinkName(link: string, target: string, style: Option<Style>, targetStyle: Option<Style>): (r: string)
    ensures style.None? ==> r == link + " -> " + target
    ensures style.Some? ==> r == Stylize(link, style) + " -> " + Stylize(target, targetStyle)
  {
    if style.Some? then Stylize(link, style) + " -> " + Stylize(target, targetStyle)
    else link + " -> " + target
  }

  /** Without a link style the target's style plays no part. */
  lemma LinkNameIgnoresTargetStyle(link: string, target: string, ts1: Option<Style>, ts2: Option<Style>)
    ensures StylizeLinkName(link, target, None, ts1) == StylizeLinkName(link, target, None, ts2)
    ensures StylizeLinkName(link, target, None, ts1) == StylizeLinkName(link, target, Some(Plain), None)
  {
  }

  // ---------------------------------------------------------------------------------
  // Symbolic permissions.

  /** The mode text followed by `@` when the file has extended attributes, a space otherwise. */
  function SymText(modeText: string, hasXattrs: bool): (r: string)
    ensures |r| == |modeText| + 1 && r[..|modeText|] == modeText
    ensures r[|modeText|] == if hasXattrs then '@' else ' '
  {
    modeText + (if hasXattrs then "@" else " ")
  }

  /** Each character painted with its theme style; characters the theme lacks are dropped. */
  function PaintChars(theme: map<char, Style>, s: string): string
  {
    if |s| == 0 then ""
    else
      var c := s[|s| - 1];
      PaintChars(theme, s[..|s| - 1]) + (if c in theme then Paint(theme[c], [c]) else "")
  }

  /** Painting character by character distributes over concatenation. */
  lemma {:induction false} PaintCharsAppend(theme: map<char, Style>, a: string, b: string)
    ensures PaintChars(theme, a + b) == PaintChars(theme, a) + PaintChars(theme, b)
    decreases |b|
  {
    if |b| == 0 {
      assert a + b == a;
    } else {
      assert (a + b)[..|a + b| - 1] == a + b[..|b| - 1];
      PaintCharsAppend(theme, a, b[..|b| - 1]);
    }
  }

  /** Reference definition: the characters of `s` the theme has an entry for. */
  function Themed(theme: map<char, Style>, s: string): (r: string)
    ensures forall i :: 0 <= i < |r| ==> r[i] in theme
    ensures |r| <= |s|
  {
    if |s| == 0 then ""
    else Themed(theme, s[..|s| - 1]) + (if s[|s| - 1] in theme then [s[|s| - 1]] else "")
  }

  /** With a theme whose styles paint nothing, the result is the input with the unthemed
      characters removed. */
  lemma {:induction false} PaintCharsPlain(theme: map<char, Style>, s: string)
    requires forall c :: c in theme ==> IsPlain(theme[c])
    ensures PaintChars(theme, s) == Themed(theme, s)
    decreases |s|
  {
    if |s| > 0 {
      PaintCharsPlain(theme, s[..|s| - 1]);
    }
  }

  /** `style_sym_permissions`: the symbolic text, painted per character with the theme, or
      as it is without one. */
  function StyleSymPermissions(modeText: string, hasXattrs: bool, theme: Option<map<char, Style>>): (r: string)
    ensures theme.None? ==> r == SymText(modeText, hasXattrs)
    ensures theme.Some? ==> r == PaintChars(theme.value, SymText(modeText, hasXattrs))
  {
    var sym := SymText(modeText, hasXattrs);
    match theme
    case None => sym
    case Some(t) => PaintChars(t, sym)
  }

  /** With a theme, the permission cell is the themed mode text followed by the themed
      marker, which is dropped when the theme has no entry for it. */
  lemma SymPermissionsMarker(modeText: string, hasXattrs: bool, theme: map<char, Style>)
    ensures
      var mark := if hasXattrs then '@' else ' ';
      StyleSymPermissions(modeText, hasXattrs, Some(theme)) ==
        PaintChars(theme, modeText) + (if mark in theme then Paint(theme[mark], [mark]) else "")
  {
    var mark := if hasXattrs then '@' else ' ';
    PaintCharsAppend(theme, modeText, [mark]);
    assert SymText(modeText, hasXattrs) == modeText + [mark];
    assert [mark][..0] == "";
  }

  // ---------------------------------------------------------------------------------
  // Octal permissions.

  predicate IsOctalDigit(c: char)
  {
    '0' <= c <= '7'
  }

  function OctalDigit(d: nat): (c: char)
    requires d < 8
    ensures IsOctalDigit(c)
  {
    (48 + d) as char
  }

  /** The value of an octal digit. */
  function DigitValue(c: char): nat
    requires IsOctalDigit(c)
  {
    c as int - 48
  }

  /** `{:o}`: the octal digits of `n`, without leading zeros (`0` for zero). */
  function Octal(n: nat): (r: string)
    ensures |r| >= 1
    ensures forall i :: 0 <= i < |r| ==> IsOctalDigit(r[i])
    ensures |r| > 1 ==> r[0] != '0'
    decreases n
  {
    if n < 8 then [OctalDigit(n)] else Octal(n / 8) + [OctalDigit(n % 8)]
  }

  /** Reference definition: the number an octal numeral denotes. */
  function ParseOctal(s: string): nat
    requires forall i :: 0 <= i < |s| ==> IsOctalDigit(s[i])
  {
    if |s| == 0 then 0 else ParseOctal(s[..|s| - 1]) * 8 + DigitValue(s[|s| - 1])
  }

  function Zeros(k: nat): (r: string)
    ensures |r| == k && forall i :: 0 <= i < k ==> r[i] == '0'
  {
    if k == 0 then "" else Zeros(k - 1) + "0"
  }

  /** `{:04o}`: the octal digits, zero-padded to at least four. */
  function Octal04(n: nat): (r: string)
    ensures |r| == if |Octal(n)| >= 4 then |Octal(n)| else 4
    ensures forall i :: 0 <= i < |r| ==> IsOctalDigit(r[i])
    ensures r[|r| - |Octal(n)|..] == Octal(n)
  {
    var digits := Octal(n);
    var pad := if |digits| >= 4 then 0 else 4 - |digits|;
    Zeros(pad) + digits
  }

  lemma {:induction false} ParseOctalOfOctal(n: nat)
    ensures ParseOctal(Octal(n)) == n
    decreases n
  {
    if n >= 8 {
      ParseOctalOfOctal(n / 8);
      var s := Octal(n);
      assert s[..|s| - 1] == Octal(n / 8);
    }
  }

  lemma {:induction false} ParseOctalAllZeros(s: string)
    requires forall i :: 0 <= i < |s| ==> s[i] == '0'
    ensures ParseOctal(s) == 0
    decreases |s|
  {
    if |s| > 0 {
      ParseOctalAllZeros(s[..|s| - 1]);
    }
  }

  lemma {:induction false} ParseOctalZeros(k: nat, s: string)
    requires forall i :: 0 <= i < |s| ==> IsOctalDigit(s[i])
    ensures ParseOctal(Zeros(k) + s) == ParseOctal(s)
    decreases |s|
  {
    if |s| == 0 {
      assert Zeros(k) + s == Zeros(k);
      ParseOctalAllZeros(Zeros(k));
    } else {
      var z := Zeros(k) + s;
      var init := s[..|s| - 1];
      assert z[..|z| - 1] == Zeros(k) + init;
      assert z[|z| - 1] == s[|s| - 1];
      ParseOctalZeros(k, init);
      assert ParseOctal(z) == ParseOctal(Zeros(k) + init) * 8 + DigitValue(s[|s| - 1]);
    }
  }

  /** The padded numeral still denotes the mode: padding only adds leading zeros. */
  lemma Octal04RoundTrip(n: nat)
    ensures ParseOctal(Octal04(n)) == n
  {
    var digits := Octal(n);
    var pad := if |digits| >= 4 then 0 else 4 - |digits|;
    ParseOctalZeros(pad, digits);
    ParseOctalOfOctal(n);
  }

  /** `style_octal_permissions`: the padded octal numeral, painted when a style is set. */
  function StyleOctalPermissions(mode: nat, style: Option<Style>): (r: string)
    ensures style.None? ==> r == Octal04(mode)
    ensures style.Some? ==> Unpaint(style.value, r) == Octal04(mode)
    ensures style.None? || IsPlain(style.value) ==> |r| >= 4 && ParseOctal(r) == mode
  {
    Octal04RoundTrip(mode);
    Stylize(Octal04(mode), style)
  }
}
