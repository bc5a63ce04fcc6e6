/**
 * The board form's color picker: its preset backgrounds, the tab it opens for
 * a background string (and the `background.type` it writes into the form while
 * doing so), and the handler that stores a chosen background. The kind is
 * sniffed from the string: `https` means an image, `gradient` a gradient,
 * anything else a solid color.
 */
module ColorPicker {
  import opened Wrappers
  import opened Zod
  import opened Strings
  import opened Schema
  import opened BoardValidation

  datatype Tab = Solid | Gradient | Image

  /** The tab the picker opens and the `background.type` it writes into the form. */
  datatype Classification = Classification(tab: Tab, kind: string)

  /** The `background.type` written alongside each tab. */
  function KindOf(tab: Tab): string
  {
    match tab
    case Solid => "color"
    case Gradient => "gradient"
    case Image => "image"
  }

  /** `defaultTab`: the first of `https` and `gradient` the string includes decides. */
  function DefaultTab(background: string): (r: Classification)
    ensures r.kind == KindOf(r.tab)
    ensures r.tab == Image <==> exists i :: OccursAt(background, "https", i)
    ensures r.tab == Gradient <==>
              (forall i :: !OccursAt(background, "https", i)) && exists i :: OccursAt(background, "gradient", i)
    ensures r.tab == Solid <==>
              (forall i :: !OccursAt(background, "https", i)) && (forall i :: !OccursAt(background, "gradient", i))
  {
    if Includes(background, "https") then Classification(Image, "image")
    else if Includes(background, "gradient") then Classification(Gradient, "gradient")
    else Classification(Solid, "color")
  }

  /** The form's `background` fields together with the picker's own `background` state. */
  datatype Picker = Picker(background: string, form: Background)

  /** `handleSetBackground`: the new string becomes both the picker state and `background.value`. */
  function HandleSetBackground(p: Picker, newBackground: string): (r: Picker)
    ensures r.background == newBackground && r.form.value == newBackground
    ensures r.form.kind == p.form.kind
  {
    Picker(newBackground, p.form.(value := newBackground))
  }

  /** The memoised `defaultTab` re-run after the background changed: it rewrites `background.type`. */
  function Rerender(p: Picker): (r: Picker)
    ensures r.background == p.background && r.form.value == p.form.value
    ensures r.form.kind == DefaultTab(p.background).kind
  {
    p.(form := p.form.(kind := DefaultTab(p.background).kind))
  }

  /** Clicking a swatch: the handler, then the re-render it triggers. */
  function Choose(p: Picker, newBackground: string): (r: Picker)
    ensures r.background == newBackground
    ensures r.form == Background(DefaultTab(newBackground).kind, newBackground)
  {
    Rerender(HandleSetBackground(p, newBackground))
  }

  // ---------------------------------------------------------------------------
  // Presets

  predicate IsHexDigit(c: char)
  {
    '0' <= c <= '9' || 'a' <= c <= 'f' || 'A' <= c <= 'F'
  }

  /** A CSS `#rrggbb` color. */
  predicate IsHexColor(c: string)
  {
    |c| == 7 && c[0] == '#' && forall k :: 1 <= k < 7 ==> IsHexDigit(c[k])
  }

  /** Color stops joined with commas. */
  function Stops(colors: seq<string>): string
  {
    if |colors| == 0 then ""
    else if |colors| == 1 then colors[0]
    else colors[0] + "," + Stops(colors[1..])
  }

  /** A top-left to bottom-right CSS gradient through `colors`. */
  function LinearGradient(colors: seq<string>): string
  {
    "linear-" + "gradient" + "(to bottom right," + Stops(colors) + ")"
  }

  /** An Unsplash photo URL. */
  function UnsplashUrl(photo: string, query: string): string
  {
    "https" + "://images.unsplash.com/photo-" + photo + "?" + query
  }

  const UnsplashQuery := "q=90&auto=format&fit=crop&ixlib=rb-4.0.3&ixid=M3wxMjA3fDB8MHxwaG90by1wYWdlfHx8fGVufDB8fHx8fA%3D%3D"

  const UnsplashQueryWide := "ixlib=rb-4.0.3&ixid=M3wxMjA3fDB8MHxwaG90by1wYWdlfHx8fGVufDB8fHx8fA%3D%3D&auto=format&fit=crop&w=2532&q=90"

  const Solids: seq<string> :=
    ["#E2E2E2", "#ff75c3", "#ffa647", "#ffe83f", "#9fff5b", "#70e2ff", "#cd93ff", "#09203f"]

  /** The color stops of each preset gradient. */
  const GradientStops: seq<seq<string>> := [
    ["#accbee", "#e7f0fd"],
    ["#d5d4d0", "#d5d4d0", "#eeeeec"],
    ["#000000", "#434343"],
    ["#09203f", "#537895"],
    ["#AC32E4", "#7918F2", "#4801FF"],
    ["#f953c6", "#b91d73"],
    ["#ee0979", "#ff6a00"],
    ["#F00000", "#DC281E"],
    ["#00c6ff", "#0072ff"],
    ["#4facfe", "#00f2fe"],
    ["#0ba360", "#3cba92"],
    ["#FDFC47", "#24FE41"],
    ["#8a2be2", "#0000cd", "#228b22", "#ccff00"],
    ["#40E0D0", "#FF8C00", "#FF0080"],
    ["#fcc5e4", "#fda34b", "#ff7882", "#c8699e", "#7046aa", "#0c1db8", "#020f75"],
    ["#ff75c3", "#ffa647", "#ffe83f", "#9fff5b", "#70e2ff", "#cd93ff"]
  ]

  function Gradients(): (r: seq<string>)
    ensures |r| == |GradientStops|
    ensures forall i :: 0 <= i < |r| ==> r[i] == LinearGradient(GradientStops[i])
  {
    seq(|GradientStops|, i requires 0 <= i < |GradientStops| => LinearGradient(GradientStops[i]))
  }

  const Images: seq<string> := [
    UnsplashUrl("1475924156734-496f6cac6ec1", UnsplashQuery),
    UnsplashUrl("1688822863426-8c5f9b257090", UnsplashQueryWide),
    UnsplashUrl("1530981711668-84c7d5aee08f", UnsplashQuery),
    UnsplashUrl("1516821440248-f497afaf1b05", UnsplashQuery)
  ]

  // ---------------------------------------------------------------------------
  // Classification of the presets

  /** No hex color holds an `s` (so no `https`) or a `g` (so no `gradient`). */
  lemma HexColorLacks(c: string)
    requires IsHexColor(c)
    ensures 's' !in c && 'g' !in c
  {
    forall k | 0 <= k < |c|
      ensures c[k] != 's' && c[k] != 'g'
    {
      if k > 0 {
        assert IsHexDigit(c[k]);
      }
    }
  }

  /** Color stops without an `s`, joined with commas, hold no `s`. */
  lemma {:induction false} StopsLackS(colors: seq<string>)
    requires forall k :: 0 <= k < |colors| ==> 's' !in colors[k]
    ensures 's' !in Stops(colors)
  {
    if |colors| > 1 {
      StopsLackS(colors[1..]);
      assert Stops(colors) == colors[0] + "," + Stops(colors[1..]);
    }
  }

  /** A hex color opens the solid tab. */
  lemma HexColorIsSolid(c: string)
    requires IsHexColor(c)
    ensures DefaultTab(c) == Classification(Solid, "color")
  {
    HexColorLacks(c);
    MissingCharExcludes(c, "https", 's');
    MissingCharExcludes(c, "gradient", 'g');
  }

  /** A linear gradient through stops without an `s` (hex colors, say) opens the gradient tab. */
  lemma LinearGradientIsGradient(colors: seq<string>)
    requires forall k :: 0 <= k < |colors| ==> 's' !in colors[k]
    ensures DefaultTab(LinearGradient(colors)) == Classification(Gradient, "gradient")
  {
    var g := LinearGradient(colors);
    StopsLackS(colors);
    assert 's' !in "linear-" + "gradient" + "(to bottom right,";
    assert 's' !in g;
    MissingCharExcludes(g, "https", 's');
    var rest := "(to bottom right," + Stops(colors) + ")";
    assert g == "linear-" + "gradient" + rest;
    IncludesInfix("linear-", "gradient", rest);
  }

  /** Any string holding `https` opens the image tab, whatever else it holds. */
  lemma HttpsIsImage(a: string, b: string)
    ensures DefaultTab(a + "https" + b) == Classification(Image, "image")
  {
    IncludesInfix(a, "https", b);
  }

  /** The empty background opens the solid tab. */
  lemma EmptyIsSolid()
    ensures DefaultTab("") == Classification(Solid, "color")
  {
    MissingCharExcludes("", "https", 's');
    MissingCharExcludes("", "gradient", 'g');
  }

  /** Every solid preset opens the solid tab. */
  lemma SolidsClassified()
    ensures forall i :: 0 <= i < |Solids| ==> DefaultTab(Solids[i]) == Classification(Solid, "color")
  {
    forall i | 0 <= i < |Solids|
      ensures DefaultTab(Solids[i]) == Classification(Solid, "color")
    {
      HexColorIsSolid(Solids[i]);
    }
  }

  /** Every gradient preset opens the gradient tab. */
  lemma GradientsClassified()
    ensures forall i :: 0 <= i < |Gradients()| ==> DefaultTab(Gradients()[i]) == Classification(Gradient, "gradient")
  {
    forall i | 0 <= i < |GradientStops|
      ensures DefaultTab(Gradients()[i]) == Classification(Gradient, "gradient")
    {
      LinearGradientIsGradient(GradientStops[i]);
    }
  }

  /** Every image preset opens the image tab. */
  lemma ImagesClassified()
    ensures forall i :: 0 <= i < |Images| ==> DefaultTab(Images[i]) == Classification(Image, "image")
  {
    forall i | 0 <= i < |Images|
      ensures DefaultTab(Images[i]) == Classification(Image, "image")
    {
      HttpsIsImage("", Images[i][5..]);
      assert Images[i] == "" + "https" + Images[i][5..];
    }
  }

  // ---------------------------------------------------------------------------
  // The picker's output against the `createBoard` schema

  /** The board form a client submits after choosing `background` in the picker. */
  function SubmittedForm(p: Picker, background: string, title: string, ownerId: string, isPublic: bool): Json
  {
    EncodeCreateBoard(CreateBoardInput(title, Choose(p, background).form, ownerId, isPublic))
  }

  /** Choosing any gradient preset makes the declared `createBoard` schema refuse the form. */
  lemma GradientPresetRejected(p: Picker, i: int, title: string, ownerId: string, isPublic: bool)
    requires 0 <= i < |Gradients()|
    ensures ParseCreateBoard(SubmittedForm(p, Gradients()[i], title, ownerId, isPublic)).None?
  {
    GradientsClassified();
    CreateBoardRoundTrip(CreateBoardInput(title, Choose(p, Gradients()[i]).form, ownerId, isPublic), BackgroundTypes);
  }

  /** Whatever is chosen, the picker writes a type the widened schema admits. */
  lemma ChosenKindAdmitted(p: Picker, background: string)
    ensures Choose(p, background).form.kind in PickerBackgroundTypes
  {
  }

  /** With the widened schema any chosen background, under an acceptable title, goes through unchanged. */
  lemma ChosenFormAccepted(p: Picker, background: string, title: string, ownerId: string, isPublic: bool)
    requires TitleInRange(title)
    ensures var x := CreateBoardInput(title, Choose(p, background).form, ownerId, isPublic);
            ParseCreateBoardFixed(SubmittedForm(p, background, title, ownerId, isPublic)) == Some(x)
  {
    var x := CreateBoardInput(title, Choose(p, background).form, ownerId, isPublic);
    CreateBoardRoundTrip(x, PickerBackgroundTypes);
  }
}
