/** The variant/appearance resolver: which colour tokens and size class a
    toast is drawn with, and the translucent gradient start colour derived
    from an `rgb(...)` accent. The CSS text these choices are pasted into is
    not modelled; colour tokens are opaque strings. */
module ToastStyles {
  import opened ToastTypes
  import opened JsStrings

  /** The four tokens of one semantic colour set. */
  datatype ColorSet = ColorSet(primary: string, secondary: string, light: string, dark: string)

  const SuccessColors := ColorSet("hsl(142.1, 76.2%, 36.3%)", "hsl(142.1, 70.6%, 45.3%)",
                                  "hsl(143, 85%, 96%)", "hsl(144.9, 80.4%, 10%)")
  const ErrorColors := ColorSet("hsl(0, 84.2%, 60.2%)", "hsl(0, 84.2%, 60.2%)",
                                "hsl(0, 100%, 98%)", "hsl(0, 72.2%, 50.6%)")
  const WarningColors := ColorSet("hsl(38, 92%, 50%)", "hsl(32, 94.6%, 43.7%)",
                                  "hsl(48, 100%, 96.1%)", "hsl(20, 90.2%, 48.2%)")
  const InfoColors := ColorSet("hsl(221.2, 83.2%, 53.3%)", "hsl(222.2, 89.8%, 61.8%)",
                               "hsl(210, 100%, 98%)", "hsl(224.3, 76.3%, 48%)")
  const DefaultColors := ColorSet("rgb(100, 116, 139)", "rgb(71, 85, 105)",
                                  "rgb(248, 250, 252)", "rgb(51, 65, 85)")

  /** The start colour used for an accent that is not an `rgb` expression. */
  const FallbackGradient := "rgba(59, 130, 246, 0.1)"

  /** The variant names the colour table has an entry for. */
  predicate KnownVariant(variant: string) {
    variant in {"success", "error", "warning", "info", "default"}
  }

  /** The colour-table lookup, falling back to the `default` set. */
  function VariantColors(variant: string): (c: ColorSet)
    ensures !KnownVariant(variant) ==> c == DefaultColors
    ensures c in {SuccessColors, ErrorColors, WarningColors, InfoColors, DefaultColors}
  {
    if variant == "success" then SuccessColors
    else if variant == "error" then ErrorColors
    else if variant == "warning" then WarningColors
    else if variant == "info" then InfoColors
    else DefaultColors
  }

  /** The width and padding classes of each size. */
  function SizeClass(size: Size): string {
    match size
    case Sm => "min-w-[280px] max-w-[320px] p-3"
    case Md => "min-w-[320px] max-w-[400px] p-4"
    case Lg => "min-w-[400px] max-w-[500px] p-5"
  }

  /** The background a toast is drawn with: the premium layered blend of a
      colour set, or a translucent tint derived from an accent colour. */
  datatype Background =
    | Layered(light: string, primary: string, secondary: string)
    | Tinted(from: string, accent: string)

  /** The style choices for one toast. */
  datatype Styles = Styles(sizeClass: string, borderColor: string, background: Background)

  /** `getEnhancedVariantStyles`: `premium` blends the variant's tokens and
      borders with its primary colour; every other appearance tints with the
      caller's colour when it is an `rgb` expression and with the variant's
      primary colour otherwise. */
  function ResolveStyles(appearance: Appearance, variant: string, gradientColor: string, size: Size): (r: Styles)
    ensures r.sizeClass == SizeClass(size)
    ensures appearance == Premium ==>
      var c := VariantColors(variant);
      r.borderColor == c.primary && r.background == Layered(c.light, c.primary, c.secondary)
    ensures appearance != Premium ==>
      && r.background == Tinted(CreateEnhancedGradient(r.borderColor), r.borderColor)
      && (Contains(gradientColor, "rgb") ==> r.borderColor == gradientColor)
      && (!Contains(gradientColor, "rgb") ==> r.borderColor == VariantColors(variant).primary)
  {
    StylesFor(appearance, VariantColors(variant), gradientColor, size)
  }

  /** The appearance switch, once the variant's colour set is looked up. */
  function StylesFor(appearance: Appearance, colors: ColorSet, gradientColor: string, size: Size): Styles {
    if appearance == Premium then
      Styles(SizeClass(size), colors.primary, Layered(colors.light, colors.primary, colors.secondary))
    else
      var parsedColor := if Contains(gradientColor, "rgb") then gradientColor else colors.primary;
      Styles(SizeClass(size), parsedColor, Tinted(CreateEnhancedGradient(parsedColor), parsedColor))
  }

  /** The components kept by `createEnhancedGradient`: one trailing
      component (the alpha of `rgba(...)`) is dropped when there are more
      than three. */
  function DropAlpha(parts: seq<string>): (kept: seq<string>)
    ensures kept <= parts
    ensures |kept| == if |parts| > 3 then |parts| - 1 else |parts|
  {
    if |parts| > 3 then parts[..|parts| - 1] else parts
  }

  /** `createEnhancedGradient`: an `rgb`/`rgba` colour with its alpha set
      to 0.08, or the fixed fallback for anything else. */
  function CreateEnhancedGradient(color: string): (r: string)
    ensures !Contains(color, "rgb") ==> r == FallbackGradient
  {
    if !Contains(color, "rgb") then FallbackGradient
    else
      var inner := Slice(color, IndexOf(color, '(') + 1, IndexOf(color, ')'));
      var parts := Split(inner, ',');
      "rgba(" + Join(DropAlpha(parts), ',') + ", 0.08)"
  }

  /** A colour component with no comma and no parenthesis. */
  predicate PlainComponent(x: string) {
    ',' !in x && '(' !in x && ')' !in x
  }

  /** A character that no piece contains, other than the separator, is
      not in their join. */
  lemma {:induction false} NotInJoin(parts: seq<string>, sep: char, c: char)
    requires c != sep
    requires forall i :: 0 <= i < |parts| ==> c !in parts[i]
    ensures c !in Join(parts, sep)
    decreases |parts|
  {
    if |parts| > 1 {
      NotInJoin(parts[1..], sep, c);
    }
  }

  /** A colour written `name(c1,...,cn)` with an `rgb`-bearing name and
      plain components becomes `rgba(` + the components, less a trailing
      alpha when there are more than three, + `, 0.08)`. */
  lemma GradientOfComponents(name: string, parts: seq<string>)
    requires Contains(name, "rgb") && '(' !in name && ')' !in name
    requires |parts| >= 1
    requires forall i :: 0 <= i < |parts| ==> PlainComponent(parts[i])
    ensures CreateEnhancedGradient(name + "(" + Join(parts, ',') + ")")
         == "rgba(" + Join(DropAlpha(parts), ',') + ", 0.08)"
  {
    var color := name + "(" + Join(parts, ',') + ")";
    WrappedContainsRgb(name, Join(parts, ','));
    WrappedComponents(name, parts);
    EnhancedOfRgb(color);
  }

  /** The components `createEnhancedGradient` reads back from
      `name(c1,...,cn)` are `c1`, ..., `cn`. */
  lemma WrappedComponents(name: string, parts: seq<string>)
    requires '(' !in name && ')' !in name
    requires |parts| >= 1
    requires forall i :: 0 <= i < |parts| ==> PlainComponent(parts[i])
    ensures var color := name + "(" + Join(parts, ',') + ")";
      Split(Slice(color, IndexOf(color, '(') + 1, IndexOf(color, ')')), ',') == parts
  {
    NotInJoin(parts, ',', '(');
    NotInJoin(parts, ',', ')');
    OpenCloseIndices(name, Join(parts, ','));
    SplitJoin(parts, ',');
  }

  /** The rgb branch of `createEnhancedGradient`, written out. */
  lemma EnhancedOfRgb(color: string)
    requires Contains(color, "rgb")
    ensures CreateEnhancedGradient(color)
         == "rgba(" + Join(DropAlpha(Split(Slice(color, IndexOf(color, '(') + 1, IndexOf(color, ')')), ',')), ',') + ", 0.08)"
  {
  }

  /** Wrapping an `rgb`-bearing name around components keeps the `rgb`. */
  lemma WrappedContainsRgb(name: string, inner: string)
    requires Contains(name, "rgb")
    ensures Contains(name + "(" + inner + ")", "rgb")
  {
    ContainsAppended(name, "(", "rgb");
    ContainsAppended(name + "(", inner, "rgb");
    ContainsAppended(name + "(" + inner, ")", "rgb");
  }

  /** In `name(inner)` with no parenthesis in `name` or `inner`, the first
      `(` and `)` enclose exactly `inner`. */
  lemma OpenCloseIndices(name: string, inner: string)
    requires '(' !in name && ')' !in name && '(' !in inner && ')' !in inner
    ensures var color := name + "(" + inner + ")";
      Slice(color, IndexOf(color, '(') + 1, IndexOf(color, ')')) == inner
  {
    var color := name + "(" + inner + ")";
    OpenIndex(name, inner);
    CloseIndex(name, inner);
    assert color[|name| + 1..|name| + 1 + |inner|] == inner;
  }

  /** The first `(` of `name(inner)` follows `name`. */
  lemma OpenIndex(name: string, inner: string)
    requires '(' !in name
    ensures IndexOf(name + "(" + inner + ")", '(') == |name|
  {
    assert name + "(" + inner + ")" == name + ("(" + inner + ")");
    IndexOfAfterFree(name, "(" + inner + ")", '(');
  }

  /** The first `)` of `name(inner)` is the closing one. */
  lemma CloseIndex(name: string, inner: string)
    requires ')' !in name && ')' !in inner
    ensures IndexOf(name + "(" + inner + ")", ')') == |name| + 1 + |inner|
  {
    assert ')' !in name + "(" + inner;
    IndexOfAfterFree(name + "(" + inner, ")", ')');
  }

  /** An `rgba(r,g,b,a)` colour keeps r, g and b and has its alpha
      replaced by 0.08. */
  lemma RgbaAlphaReplaced(r: string, g: string, b: string, a: string)
    requires PlainComponent(r) && PlainComponent(g) && PlainComponent(b) && PlainComponent(a)
    ensures CreateEnhancedGradient("rgba(" + Join([r, g, b, a], ',') + ")")
         == "rgba(" + Join([r, g, b], ',') + ", 0.08)"
  {
    var parts := [r, g, b, a];
    assert forall i :: 0 <= i < |parts| ==> PlainComponent(parts[i]);
    assert DropAlpha(parts) == [r, g, b];
    assert MatchesAt("rgba", "rgb", 0);
    GradientOfComponents("rgba", parts);
    assert "rgba" + "(" == "rgba(";
  }

  /** The join of three pieces, written out. */
  lemma JoinThree(r: string, g: string, b: string) returns (joined: string)
    ensures joined == Join([r, g, b], ',') && joined == r + "," + g + "," + b
  {
    JoinCons(r, [g, b], ',');
    JoinCons(g, [b], ',');
    assert [r] + [g, b] == [r, g, b];
    assert [g] + [b] == [g, b];
    joined := Join([r, g, b], ',');
  }

  /** When some character of `sub` is missing from `s`, `s` does not
      contain `sub`. */
  lemma NotContainsMissingChar(s: string, sub: string, k: nat)
    requires k < |sub| && sub[k] !in s
    ensures !Contains(s, sub)
  {
  }

  /** The `default` variant's primary colour, made translucent. */
  lemma DefaultPrimaryGradient()
    ensures CreateEnhancedGradient(DefaultColors.primary) == "rgba(100, 116, 139, 0.08)"
  {
    assert "rgb" + "(" + "100, 116, 139" + ")" == DefaultColors.primary;
    assert "rgba(" + "100, 116, 139" + ", 0.08)" == "rgba(100, 116, 139, 0.08)";
    var parts := ["100", " 116", " 139"];
    var joined := JoinThree("100", " 116", " 139");
    assert joined == "100, 116, 139";
    assert forall i :: 0 <= i < |parts| ==> PlainComponent(parts[i]);
    assert MatchesAt("rgb", "rgb", 0);
    GradientOfComponents("rgb", parts);
  }

  /** With the default accent `var(--primary)`, a gradient toast
      of the `default` variant is tinted from the variant's own rgb primary
      colour, made translucent. */
  lemma DefaultVariantDefaultAccent()
    ensures ResolveStyles(Gradient, "default", DefaultGradientColor, Md).background
         == Tinted("rgba(100, 116, 139, 0.08)", "rgb(100, 116, 139)")
  {
    NotContainsMissingChar(DefaultGradientColor, "rgb", 1);
    assert VariantColors("default") == DefaultColors;
    TintedByVariantPrimary(Gradient, "default", DefaultGradientColor, Md);
    DefaultPrimaryGradient();
  }

  /** Without an `rgb` accent, a non-premium toast is tinted from its
      variant's primary colour. */
  lemma TintedByVariantPrimary(appearance: Appearance, variant: string, gradientColor: string, size: Size)
    requires appearance != Premium && !Contains(gradientColor, "rgb")
    ensures var p := VariantColors(variant).primary;
      ResolveStyles(appearance, variant, gradientColor, size).background == Tinted(CreateEnhancedGradient(p), p)
  {
  }

  /** The `hsl` primaries of the named variants are no `rgb` expression,
      so with the default accent a gradient toast of those variants gets
      the fixed fallback tint. */
  lemma HslVariantDefaultAccent(variant: string)
    requires variant in {"success", "error", "warning", "info"}
    ensures ResolveStyles(Gradient, variant, DefaultGradientColor, Md).background.from == FallbackGradient
  {
    NotContainsMissingChar(DefaultGradientColor, "rgb", 1);
    HslPrimaryIsNotRgb(variant);
    var styles := ResolveStyles(Gradient, variant, DefaultGradientColor, Md);
    assert styles.borderColor == VariantColors(variant).primary;
  }

  /** The primary colours of the named variants contain no `rgb`. */
  lemma HslPrimaryIsNotRgb(variant: string)
    requires variant in {"success", "error", "warning", "info"}
    ensures !Contains(VariantColors(variant).primary, "rgb")
  {
    var primary := VariantColors(variant).primary;
    assert primary in {SuccessColors.primary, ErrorColors.primary, WarningColors.primary, InfoColors.primary};
    assert 'g' !in primary;
    NotContainsMissingChar(primary, "rgb", 1);
  }

  /** An unrecognised variant is styled exactly like `default`. */
  lemma UnknownVariantStyledAsDefault(appearance: Appearance, variant: string, gradientColor: string, size: Size)
    requires !KnownVariant(variant)
    ensures ResolveStyles(appearance, variant, gradientColor, size)
         == ResolveStyles(appearance, "default", gradientColor, size)
  {
    assert VariantColors("default") == DefaultColors;
  }
}
