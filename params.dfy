/**
 * The numeric edit parameters of a history entry or of a mask
 * (`getEmptyEdits`, script.js lines 47-54, without the curve points, which
 * the history module keeps beside them) and the slider read-back that
 * `pushHistory` performs (lines 199-204).
 */
module EditParams {

  /** The fifteen numeric parameters, named as in `getEmptyEdits`. */
  datatype Adjustments = Adjustments(
    exposure: real, contrast: real, highlights: real, shadows: real,
    temperature: real, saturation: real,
    shadowsHue: real, shadowsSaturation: real,
    midtonesHue: real, midtonesSaturation: real,
    highlightsHue: real, highlightsSaturation: real,
    texture: real, clarity: real, dehaze: real)

  /** The key of one parameter: the id of its slider, less any `mask-` prefix. */
  datatype Field =
    | Exposure | Contrast | Highlights | Shadows | Temperature | Saturation
    | ShadowsHue | ShadowsSaturation | MidtonesHue | MidtonesSaturation
    | HighlightsHue | HighlightsSaturation | Texture | Clarity | Dehaze

  /** Every numeric parameter at its default, zero. */
  const Zero: Adjustments := Adjustments(0.0, 0.0, 0.0, 0.0, 0.0, 0.0, 0.0, 0.0, 0.0, 0.0, 0.0, 0.0, 0.0, 0.0, 0.0)

  /** The value of one parameter, looked up by key. */
  function Get(a: Adjustments, f: Field): real
  {
    match f
    case Exposure => a.exposure
    case Contrast => a.contrast
    case Highlights => a.highlights
    case Shadows => a.shadows
    case Temperature => a.temperature
    case Saturation => a.saturation
    case ShadowsHue => a.shadowsHue
    case ShadowsSaturation => a.shadowsSaturation
    case MidtonesHue => a.midtonesHue
    case MidtonesSaturation => a.midtonesSaturation
    case HighlightsHue => a.highlightsHue
    case HighlightsSaturation => a.highlightsSaturation
    case Texture => a.texture
    case Clarity => a.clarity
    case Dehaze => a.dehaze
  }

  /**
   * `edits[editKey] = parseFloat(s.value)` for every slider of one panel:
   * each key that has a slider takes the slider's value, every other key
   * keeps the value it had.
   */
  function Overlay(a: Adjustments, sliders: map<Field, real>): Adjustments
  {
    Adjustments(
      if Exposure in sliders then sliders[Exposure] else a.exposure,
      if Contrast in sliders then sliders[Contrast] else a.contrast,
      if Highlights in sliders then sliders[Highlights] else a.highlights,
      if Shadows in sliders then sliders[Shadows] else a.shadows,
      if Temperature in sliders then sliders[Temperature] else a.temperature,
      if Saturation in sliders then sliders[Saturation] else a.saturation,
      if ShadowsHue in sliders then sliders[ShadowsHue] else a.shadowsHue,
      if ShadowsSaturation in sliders then sliders[ShadowsSaturation] else a.shadowsSaturation,
      if MidtonesHue in sliders then sliders[MidtonesHue] else a.midtonesHue,
      if MidtonesSaturation in sliders then sliders[MidtonesSaturation] else a.midtonesSaturation,
      if HighlightsHue in sliders then sliders[HighlightsHue] else a.highlightsHue,
      if HighlightsSaturation in sliders then sliders[HighlightsSaturation] else a.highlightsSaturation,
      if Texture in sliders then sliders[Texture] else a.texture,
      if Clarity in sliders then sliders[Clarity] else a.clarity,
      if Dehaze in sliders then sliders[Dehaze] else a.dehaze)
  }

  /**
   * After a panel is read back, each key that has a slider holds the
   * slider's value and every other key keeps the value it had.
   */
  lemma {:induction false} OverlayGet(a: Adjustments, sliders: map<Field, real>, f: Field)
    ensures Get(Overlay(a, sliders), f) == if f in sliders then sliders[f] else Get(a, f)
  {
    match f
    case Exposure =>
    case Contrast =>
    case Highlights =>
    case Shadows =>
    case Temperature =>
    case Saturation =>
    case ShadowsHue =>
    case ShadowsSaturation =>
    case MidtonesHue =>
    case MidtonesSaturation =>
    case HighlightsHue =>
    case HighlightsSaturation =>
    case Texture =>
    case Clarity =>
    case Dehaze =>
  }

  /** Two parameter sets that agree on every key are the same set. */
  lemma {:induction false} SameFieldsSame(a: Adjustments, b: Adjustments)
    requires forall f :: Get(a, f) == Get(b, f)
    ensures a == b
  {
    assert Get(a, Exposure) == Get(b, Exposure) && Get(a, Contrast) == Get(b, Contrast);
    assert Get(a, Highlights) == Get(b, Highlights) && Get(a, Shadows) == Get(b, Shadows);
    assert Get(a, Temperature) == Get(b, Temperature) && Get(a, Saturation) == Get(b, Saturation);
    assert Get(a, ShadowsHue) == Get(b, ShadowsHue) && Get(a, ShadowsSaturation) == Get(b, ShadowsSaturation);
    assert Get(a, MidtonesHue) == Get(b, MidtonesHue) && Get(a, MidtonesSaturation) == Get(b, MidtonesSaturation);
    assert Get(a, HighlightsHue) == Get(b, HighlightsHue) && Get(a, HighlightsSaturation) == Get(b, HighlightsSaturation);
    assert Get(a, Texture) == Get(b, Texture) && Get(a, Clarity) == Get(b, Clarity) && Get(a, Dehaze) == Get(b, Dehaze);
  }

  /** Reading back a panel with no sliders changes nothing. */
  lemma OverlayNothing(a: Adjustments)
    ensures Overlay(a, map[]) == a
  {
    forall f ensures Get(Overlay(a, map[]), f) == Get(a, f) {
      OverlayGet(a, map[], f);
    }
    SameFieldsSame(Overlay(a, map[]), a);
  }

  /** Reading back a panel twice with the same slider values is the same as once. */
  lemma OverlayIdempotent(a: Adjustments, sliders: map<Field, real>)
    ensures Overlay(Overlay(a, sliders), sliders) == Overlay(a, sliders)
  {
    forall f ensures Get(Overlay(Overlay(a, sliders), sliders), f) == Get(Overlay(a, sliders), f) {
      OverlayGet(a, sliders, f);
      OverlayGet(Overlay(a, sliders), sliders, f);
    }
    SameFieldsSame(Overlay(Overlay(a, sliders), sliders), Overlay(a, sliders));
  }
}
