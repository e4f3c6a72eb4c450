/** The canvas renderer: a stack of saved transforms and opacities kept in growing arrays beside
    the browser's own drawing state. What is drawn for a tree of layers is compared with a
    reference semantics of which only the blend mode is passed from layer to layer, and with one
    that has no state at all. */
module Canvas {
  import opened Matrices

  // ----- scenes -----

  datatype Style = Style(id: int, stroke: bool, width: real, shouldRender: bool, opacity: real, mat: Mat)

  datatype Letter = Letter(id: int, newLine: bool, placed: bool, mat: Mat, opacity: real)

  datatype Content =
    | Picture(id: int)
    | Composition(id: int, layers: seq<Layer>)
    | Shape(styles: seq<Style>)
    | Lettering(letters: seq<Letter>)

  /** A layer slot may be empty while its element has not been built. The blend mode is one of sixteen;
      any other number stands for a mode that is missing or unknown. */
  datatype Layer = Missing | Layer(hidden: bool, masked: bool, blend: int, mat: Mat, opacity: real, content: Content)

  // ----- what the browser draws -----

  /** The six numbers of a canvas transform. */
  datatype Flat = Flat(a: real, b: real, c: real, d: real, e: real, f: real)

  function FlatOf(m: Mat): Flat {
    Flat(m.m0, m.m1, m.m4, m.m5, m.m12, m.m13)
  }

  datatype Clip = MaskClip(mat: Mat) | LayerClip(id: int)

  datatype Paint = Paint(id: int, transform: Flat, alpha: real, blend: int, clips: seq<Clip>)

  /** The drawing state that the browser saves and restores. */
  datatype Native = Native(transform: Flat, alpha: real, blend: int, clips: seq<Clip>)

  // ----- the reference semantics -----

  /** What surrounds a layer: accumulated transform, opacity and clips. */
  datatype Env = Env(mat: Mat, alpha: real, clips: seq<Clip>)

  function Clamp(opacity: real): real {
    if opacity < 0.0 then 0.0 else opacity
  }

  /** A transform is applied unless its flat part is the identity. */
  function Placed(env: Env, mat: Mat): Env {
    if FlatOf(mat) == FlatOf(IDENTITY) then env else env.(mat := Transformed(mat, env.mat))
  }

  function Faded(env: Env, opacity: real): Env {
    env.(alpha := env.alpha * Clamp(opacity))
  }

  function Clipped(env: Env, clip: Clip): Env {
    env.(clips := env.clips + [clip])
  }

  function PaintIn(id: int, env: Env, blend: int): Paint {
    Paint(id, FlatOf(env.mat), env.alpha, blend, env.clips)
  }

  predicate Draws(style: Style, alpha: real) {
    !(style.stroke && style.width == 0.0) && style.shouldRender && style.opacity != 0.0 && alpha != 0.0
  }

  function StylePaints(styles: seq<Style>, env: Env, blend: int): seq<Paint> {
    if styles == [] then []
    else
      StylePaints(styles[..|styles| - 1], env, blend)
      + var s := styles[|styles| - 1];
        if Draws(s, env.alpha) then [PaintIn(s.id, Placed(Faded(env, s.opacity), s.mat), blend)] else []
  }

  function LetterPaints(letters: seq<Letter>, env: Env, blend: int): seq<Paint> {
    if letters == [] then []
    else
      LetterPaints(letters[..|letters| - 1], env, blend)
      + var l := letters[|letters| - 1];
        if l.newLine then []
        else [PaintIn(l.id, if l.placed then Faded(Placed(env, l.mat), l.opacity) else env, blend)]
  }

  function ContentPaints(content: Content, env: Env, blend: int): seq<Paint>
    decreases content, 0
  {
    match content
    case Picture(id) => [PaintIn(id, env, blend)]
    case Composition(id, layers) => LayersPaints(layers, Clipped(env, LayerClip(id)), blend)
    case Shape(styles) => StylePaints(styles, env, blend)
    case Lettering(letters) => LetterPaints(letters, env, blend)
  }

  predicate Known(blend: int) {
    0 <= blend < 16
  }

  /** The browser ignores a mode that it does not know and keeps the one it has. */
  function Blended(layer: Layer, blend: int): int
    requires layer.Layer?
  {
    if Known(layer.blend) then layer.blend else blend
  }

  /** The mode that a layer leaves behind: the one it has set, unless it is hidden or its mask is undone. */
  function BlendAfter(layer: Layer, blend: int): int {
    if layer.Missing? || layer.hidden || layer.masked then blend else Blended(layer, blend)
  }

  function BlendAfterAll(layers: seq<Layer>, blend: int): int {
    if layers == [] then blend else BlendAfter(layers[0], BlendAfterAll(layers[1..], blend))
  }

  /** Layers are drawn from the last to the first. */
  function LayersPaints(layers: seq<Layer>, env: Env, blend: int): seq<Paint>
    decreases layers, 0
  {
    if layers == [] then []
    else LayersPaints(layers[1..], env, blend) + Scene(layers[0], env, BlendAfterAll(layers[1..], blend))
  }

  /** The paints of one layer, as a function of what surrounds it and of the mode left behind by
      what was drawn before. */
  function Scene(layer: Layer, env: Env, blend: int): seq<Paint>
    decreases layer, 1
  {
    if layer.Missing? || layer.hidden then []
    else
      var env1 := if layer.masked then Clipped(env, MaskClip(layer.mat)) else env;
      VisiblePaints(layer, env1, blend)
  }

  function VisiblePaints(layer: Layer, env: Env, blend: int): seq<Paint>
    requires layer.Layer?
    decreases layer, 0
  {
    ContentPaints(layer.content, Inner(layer, env), Blended(layer, blend))
  }

  /** What surrounds the content of a layer. */
  function Inner(layer: Layer, env: Env): Env
    requires layer.Layer?
  {
    Faded(Placed(env, layer.mat), layer.opacity)
  }

  // ----- the renderer -----

  datatype BlendCache = Unknown | Cached(blend: int)

  class Renderer {
    // context data
    var saved: array<Mat>
    var savedOp: array<real>
    var length: nat
    var pos: nat
    var cTr: Mat
    var cO: real
    // global data
    var currentAlpha: real
    var blendCache: BlendCache
    // the browser's canvas context
    var native: Native
    var nativeStack: seq<Native>
    // everything drawn so far
    var log: seq<Paint>

    ghost predicate Sized()
      reads this
    {
      saved.Length == savedOp.Length == length && 0 < length && pos <= length
    }

    /** The arrays are large enough, and the browser's transform and alpha follow the renderer's. */
    ghost predicate Valid()
      reads this
    {
      && Sized()
      && native.transform == FlatOf(cTr) && native.alpha == cO && cO >= 0.0
      && (currentAlpha == cO || currentAlpha == -1.0)
      && (blendCache.Cached? && Known(blendCache.blend) ==> native.blend == blendCache.blend)
    }

    /** The unbounded stacks that the arrays stand for. */
    ghost function Mats(): seq<Mat>
      requires Sized()
      reads this, saved
    {
      saved[..pos]
    }

    ghost function Opacities(): seq<real>
      requires Sized()
      reads this, savedOp
    {
      savedOp[..pos]
    }

    ghost function Surroundings(): Env
      reads this
    {
      Env(cTr, cO, native.clips)
    }

    constructor (native: Native)
      requires native.transform == FlatOf(IDENTITY) && native.alpha == 1.0
      ensures Valid() && Mats() == [] && Opacities() == [] && fresh(saved) && fresh(savedOp)
      ensures Surroundings() == Env(IDENTITY, 1.0, native.clips) && this.native == native && nativeStack == []
              && log == []
    {
      saved := new Mat[15](_ => IDENTITY);
      savedOp := new real[15](_ => 0.0);
      length := 15;
      pos := 0;
      cTr := IDENTITY;
      cO := 1.0;
      currentAlpha := -1.0;
      blendCache := Unknown;
      this.native := native;
      nativeStack := [];
      log := [];
    }

    /** `duplicate`: doubles both arrays and keeps their contents. */
    method Duplicate()
      requires Valid()
      modifies this`saved, this`savedOp, this`length
      ensures Valid() && Mats() == old(Mats()) && Opacities() == old(Opacities())
      ensures length == 2 * old(length) && fresh(saved) && fresh(savedOp)
    {
      var t := 2 * length;
      var moreOp := new real[t](_ => 0.0);
      var more := new Mat[t](_ => IDENTITY);
      var k := 0;
      while k < length
        invariant 0 <= k <= length && more.Length == moreOp.Length == t
        invariant more[..k] == saved[..k] && moreOp[..k] == savedOp[..k]
        modifies more, moreOp
      {
        more[k], moreOp[k] := saved[k], savedOp[k];
        k := k + 1;
      }
      assert more[..pos] == more[..k][..pos] && moreOp[..pos] == moreOp[..k][..pos];
      assert saved[..pos] == saved[..k][..pos] && savedOp[..pos] == savedOp[..k][..pos];
      saved, savedOp, length := more, moreOp, t;
    }

    /** `save`: pushes transform and opacity; `all` also saves the browser's state. */
    method Save(all: bool)
      requires Valid()
      modifies this`saved, this`savedOp, this`length, this`pos, this`nativeStack, saved, savedOp
      ensures Valid() && Mats() == old(Mats()) + [cTr] && Opacities() == old(Opacities()) + [cO]
      ensures nativeStack == if all then old(nativeStack) + [native] else old(nativeStack)
      ensures (saved == old(saved) || fresh(saved)) && (savedOp == old(savedOp) || fresh(savedOp))
    {
      if all {
        nativeStack := nativeStack + [native];
      }
      if length <= pos {
        Duplicate();
      }
      Push(cTr, cO);
    }

    method Push(mat: Mat, op: real)
      requires Valid() && pos < length
      modifies this`pos, saved, savedOp
      ensures Valid() && Mats() == old(Mats()) + [mat] && Opacities() == old(Opacities()) + [op]
    {
      saved[pos] := mat;
      savedOp[pos] := op;
      pos := pos + 1;
    }

    /** `restore`: pops what the matching `save` pushed. */
    method Restore(all: bool)
      requires Valid() && pos > 0 && Opacities()[pos - 1] >= 0.0
      requires all ==> nativeStack != []
      requires all ==> var top := nativeStack[|nativeStack| - 1];
                       top.transform == FlatOf(Mats()[pos - 1]) && top.alpha == Opacities()[pos - 1]
      modifies this`pos, this`cTr, this`cO, this`currentAlpha, this`blendCache, this`native, this`nativeStack
      ensures Valid() && pos == old(pos) - 1 && Mats() == old(Mats())[..pos] && Opacities() == old(Opacities())[..pos]
      ensures cTr == old(Mats())[pos] && cO == old(Opacities())[pos] && currentAlpha == cO
      ensures nativeStack == if all then old(nativeStack)[..|old(nativeStack)| - 1] else old(nativeStack)
      ensures native == (if all then old(nativeStack)[|old(nativeStack)| - 1]
                         else old(native)).(transform := FlatOf(cTr), alpha := cO)
    {
      hide FlatOf;
      if all {
        native := nativeStack[|nativeStack| - 1];
        nativeStack := nativeStack[..|nativeStack| - 1];
        blendCache := Unknown;
      }
      pos := pos - 1;
      cTr := saved[pos];
      native := native.(transform := FlatOf(cTr));
      var op := savedOp[pos];
      cO := op;
      if currentAlpha != op {
        native := native.(alpha := op);
        currentAlpha := op;
      }
    }

    /** `ctxTransform`. */
    method ApplyTransform(t: Mat)
      requires Valid()
      modifies this`cTr, this`native
      ensures Valid() && Surroundings() == Placed(old(Surroundings()), t)
      ensures native == old(native).(transform := FlatOf(cTr))
      ensures Placement(old(cTr)) && Flatly(t) ==>
                Placement(cTr) && forall p :: Apply(cTr, p) == Apply(old(cTr), Apply(t, p))
    {
      PlacedComposes(Surroundings(), t);
      if t.m0 != 1.0 || t.m1 != 0.0 || t.m4 != 0.0 || t.m5 != 1.0 || t.m12 != 0.0 || t.m13 != 0.0 {
        cTr := Transformed(t, cTr);
        native := native.(transform := FlatOf(cTr));
      }
    }

    /** `ctxOpacity`. */
    method ApplyOpacity(opacity: real)
      requires Valid()
      modifies this`cO, this`native, this`currentAlpha
      ensures Valid() && Surroundings() == Faded(old(Surroundings()), opacity)
      ensures cO == if opacity >= 0.0 then old(cO) * opacity else 0.0
      ensures native == old(native).(alpha := cO)
      ensures currentAlpha == cO
    {
      ScaledNonNegative(cO, Clamp(opacity));
      cO := cO * Clamp(opacity);
      if currentAlpha != cO {
        native := native.(alpha := cO);
        currentAlpha := cO;
      }
    }

    // ----- rendering -----

    /** `setBlendMode`: tells the browser only when the cached mode differs; what it does not know it ignores. */
    method SetBlend(blend: int)
      requires Valid()
      modifies this`native, this`blendCache
      ensures Valid() && native == old(native).(blend := if Known(blend) then blend else old(native.blend))
    {
      if blendCache != Cached(blend) {
        blendCache := Cached(blend);
        if Known(blend) {
          native := native.(blend := blend);
        }
      }
    }

    method Draw(id: int)
      requires Valid()
      modifies this`log
      ensures Valid() && log == old(log) + [PaintIn(id, Surroundings(), native.blend)]
    {
      log := log + [Paint(id, native.transform, native.alpha, native.blend, native.clips)];
    }

    method AddClip(clip: Clip)
      requires Valid()
      modifies this`native
      ensures Valid() && native == old(native).(clips := old(native.clips) + [clip])
    {
      native := native.(clips := native.clips + [clip]);
    }

    /** What every rendering step leaves as it was. */
    twostate predicate Kept()
      requires old(Valid()) && Valid()
      reads this, saved, savedOp
    {
      && Mats() == old(Mats()) && Opacities() == old(Opacities()) && pos == old(pos)
      && nativeStack == old(nativeStack)
      && cTr == old(cTr) && cO == old(cO)
      && (saved == old(saved) || fresh(saved)) && (savedOp == old(savedOp) || fresh(savedOp))
    }

    /** One style of a shape: saved, faded, placed, painted, restored. */
    method RenderStyle(style: Style)
      requires Valid() && currentAlpha == cO
      modifies this, saved, savedOp
      ensures Valid() && currentAlpha == cO && Kept() && native == old(native)
      ensures log == old(log) + if Draws(style, cO) then
                                  [PaintIn(style.id, Placed(Faded(old(Surroundings()), style.opacity), style.mat),
                                           old(native.blend))]
                                else []
    {
      hide Transformed, Faded, Placed, FlatOf;
      if !(style.stroke && style.width == 0.0) && style.shouldRender && style.opacity != 0.0 && currentAlpha != 0.0 {
        Save(false);
        ApplyOpacity(style.opacity);
        ApplyTransform(style.mat);
        Draw(style.id);
        Restore(false);
      }
    }

    /** `drawLayer`. */
    method RenderStyles(styles: seq<Style>)
      requires Valid() && currentAlpha == cO
      modifies this, saved, savedOp
      ensures Valid() && Kept() && native == old(native)
      ensures log == old(log) + StylePaints(styles, old(Surroundings()), old(native.blend))
    {
      var k := 0;
      assert styles[..0] == [] && log + [] == log;
      while k < |styles|
        invariant 0 <= k <= |styles|
        invariant Valid() && currentAlpha == cO && Kept() && native == old(native)
        invariant log == old(log) + StylePaints(styles[..k], old(Surroundings()), old(native.blend))
      {
        assert styles[..k + 1][..k] == styles[..k];
        RenderStyle(styles[k]);
        k := k + 1;
      }
      assert styles[..k] == styles;
    }

    method RenderLetter(letter: Letter)
      requires Valid()
      modifies this, saved, savedOp
      ensures Valid() && Kept() && native == old(native)
      ensures log == old(log) + if letter.newLine then [] else
                                  [PaintIn(letter.id, if letter.placed
                                           then Faded(Placed(old(Surroundings()), letter.mat), letter.opacity)
                                                      else old(Surroundings()), old(native.blend))]
    {
      hide Transformed, Faded, Placed, FlatOf;
      if !letter.newLine {
        if letter.placed {
          Save(false);
          ApplyTransform(letter.mat);
          ApplyOpacity(letter.opacity);
        }
        Draw(letter.id);
        if letter.placed {
          Restore(false);
        }
      }
    }

    method RenderLetters(letters: seq<Letter>)
      requires Valid()
      modifies this, saved, savedOp
      ensures Valid() && Kept() && native == old(native)
      ensures log == old(log) + LetterPaints(letters, old(Surroundings()), old(native.blend))
    {
      var k := 0;
      assert letters[..0] == [] && log + [] == log;
      while k < |letters|
        invariant 0 <= k <= |letters|
        invariant Valid() && Kept() && native == old(native)
        invariant log == old(log) + LetterPaints(letters[..k], old(Surroundings()), old(native.blend))
      {
        assert letters[..k + 1][..k] == letters[..k];
        RenderLetter(letters[k]);
        k := k + 1;
      }
      assert letters[..k] == letters;
    }

    /** The layers of a composition, from the last to the first. */
    method RenderLayers(layers: seq<Layer>)
      requires Valid()
      modifies this, saved, savedOp
      ensures Valid() && Kept() && native.clips == old(native.clips)
      ensures native.blend == BlendAfterAll(layers, old(native.blend))
      ensures log == old(log) + LayersPaints(layers, old(Surroundings()), old(native.blend))
      decreases layers, 0
    {
      var k := |layers|;
      assert layers[k..] == [] && log + [] == log;
      while k > 0
        invariant 0 <= k <= |layers|
        invariant Valid() && Kept() && native.clips == old(native.clips)
        invariant native.blend == BlendAfterAll(layers[k..], old(native.blend))
        invariant log == old(log) + LayersPaints(layers[k..], old(Surroundings()), old(native.blend))
      {
        k := k - 1;
        assert layers[k..][1..] == layers[k + 1..];
        RenderLayer(layers[k]);
      }
      assert layers[0..] == layers;
    }

    method RenderContent(content: Content)
      requires Valid() && currentAlpha == cO
      modifies this, saved, savedOp
      ensures Valid() && Kept()
      ensures !content.Composition? ==> native == old(native)
      ensures log == old(log) + ContentPaints(content, old(Surroundings()), old(native.blend))
      decreases content, 0
    {
      match content
      case Picture(id) => Draw(id);
      case Composition(id, layers) =>
        AddClip(LayerClip(id));
        RenderLayers(layers);
      case Shape(styles) => RenderStyles(styles);
      case Lettering(letters) => RenderLetters(letters);
    }

    /** `renderFrame` of a layer: everything it changes it puts back, and it paints what the
        reference semantics says. */
    method RenderLayer(layer: Layer)
      requires Valid()
      modifies this, saved, savedOp
      ensures Valid() && Kept() && native.clips == old(native.clips)
      ensures native.blend == BlendAfter(layer, old(native.blend))
      ensures log == old(log) + Scene(layer, old(Surroundings()), old(native.blend))
      decreases layer, 3
    {
      hide Transformed, Faded, Placed, FlatOf, ContentPaints;
      if layer.Layer? && !layer.hidden {
        if layer.masked {
          RenderMasked(layer);
        } else {
          RenderVisible(layer);
        }
      }
    }

    /** The mask's own save and clip around everything else. */
    method RenderMasked(layer: Layer)
      requires Valid() && layer.Layer?
      modifies this, saved, savedOp
      ensures Valid() && Kept() && native.clips == old(native.clips) && native.blend == old(native.blend)
      ensures log == old(log) + VisiblePaints(layer, Clipped(old(Surroundings()), MaskClip(layer.mat)),
                                              old(native.blend))
      decreases layer, 2
    {
      hide Transformed, Faded, Placed, FlatOf, ContentPaints, VisiblePaints, Blended, Known;
      Save(true);
      AddClip(MaskClip(layer.mat));
      RenderVisible(layer);
      Restore(true);
    }

    method RenderVisible(layer: Layer)
      requires Valid() && layer.Layer?
      modifies this, saved, savedOp
      ensures Valid() && Kept() && native.clips == old(native.clips)
              && native.blend == Blended(layer, old(native.blend))
      ensures log == old(log) + VisiblePaints(layer, old(Surroundings()), old(native.blend))
      decreases layer, 1
    {
      hide Transformed, Faded, Placed, FlatOf, ContentPaints;
      SetBlend(layer.blend);
      RenderPlaced(layer);
    }

    /** The part of `renderFrame` between the inner save and restore. */
    method RenderPlaced(layer: Layer)
      requires Valid() && layer.Layer?
      modifies this, saved, savedOp
      ensures Valid() && Kept() && native.clips == old(native.clips) && native.blend == old(native.blend)
      ensures log == old(log) + ContentPaints(layer.content, Inner(layer, old(Surroundings())), old(native.blend))
      decreases layer, 0
    {
      hide Transformed, Faded, Placed, FlatOf, ContentPaints, Blended, BlendAfterAll;
      var all := layer.content.Composition?;
      Save(all);
      ApplyTransform(layer.mat);
      ApplyOpacity(layer.opacity);
      RenderContent(layer.content);
      Restore(all);
    }
  }

  // ----- what the reference semantics guarantees -----

  /** Every paint lies inside the clips that surround its layer, and inside a composition also
      inside the composition's own clip. */
  ghost predicate Inside(paints: seq<Paint>, clips: seq<Clip>) {
    forall k | 0 <= k < |paints| :: clips <= paints[k].clips
  }

  lemma InsideConcat(a: seq<Paint>, b: seq<Paint>, clips: seq<Clip>)
    requires Inside(a, clips) && Inside(b, clips)
    ensures Inside(a + b, clips)
  {
  }

  lemma {:induction false} SceneInsideClips(layer: Layer, env: Env, blend: int)
    ensures Inside(Scene(layer, env, blend), env.clips)
    ensures layer.Layer? && layer.masked ==> Inside(Scene(layer, env, blend), env.clips + [MaskClip(layer.mat)])
    decreases layer, 2
  {
    if layer.Layer? && !layer.hidden {
      var env1 := if layer.masked then Clipped(env, MaskClip(layer.mat)) else env;
      ContentInsideClips(layer.content, Inner(layer, env1), Blended(layer, blend));
      assert env.clips <= env1.clips;
    }
  }

  lemma {:induction false} ContentInsideClips(content: Content, env: Env, blend: int)
    ensures Inside(ContentPaints(content, env, blend), env.clips)
    decreases content, 1
  {
    match content
    case Picture(id) =>
    case Composition(id, layers) =>
      LayersInsideClips(layers, Clipped(env, LayerClip(id)), blend);
      assert env.clips <= Clipped(env, LayerClip(id)).clips;
    case Shape(styles) => StylesInsideClips(styles, env, blend);
    case Lettering(letters) => LettersInsideClips(letters, env, blend);
  }

  lemma {:induction false} LayersInsideClips(layers: seq<Layer>, env: Env, blend: int)
    ensures Inside(LayersPaints(layers, env, blend), env.clips)
    decreases layers, 0
  {
    if layers != [] {
      var before := BlendAfterAll(layers[1..], blend);
      LayersInsideClips(layers[1..], env, blend);
      SceneInsideClips(layers[0], env, before);
      InsideConcat(LayersPaints(layers[1..], env, blend), Scene(layers[0], env, before), env.clips);
    }
  }

  lemma {:induction false} StylesInsideClips(styles: seq<Style>, env: Env, blend: int)
    ensures Inside(StylePaints(styles, env, blend), env.clips)
  {
    if styles != [] {
      StylesInsideClips(styles[..|styles| - 1], env, blend);
    }
  }

  lemma {:induction false} LettersInsideClips(letters: seq<Letter>, env: Env, blend: int)
    ensures Inside(LetterPaints(letters, env, blend), env.clips)
  {
    if letters != [] {
      LettersInsideClips(letters[..|letters| - 1], env, blend);
    }
  }

  lemma ScaledNonNegative(x: real, y: real)
    requires x >= 0.0 && y >= 0.0
    ensures x * y >= 0.0
  {
  }

  // ----- where a paint lands -----

  /** One step from a drawing outwards: into a layer, a style or a letter. */
  datatype Hop = Hop(mat: Mat, opacity: real)

  /** Something painted: the steps that lead to it, the outermost first, and the clips around it. */
  datatype Spot = Spot(id: int, hops: seq<Hop>, clips: seq<Clip>)

  /** A matrix that moves the plane, or nothing at all. */
  predicate Flatly(m: Mat) {
    Placement(m) && (FlatOf(m) == FlatOf(IDENTITY) ==> m == IDENTITY)
  }

  /** A point goes through the innermost matrix first. */
  function Outward(hops: seq<Hop>, p: Point): Point {
    if hops == [] then p else Outward(hops[..|hops| - 1], Apply(hops[|hops| - 1].mat, p))
  }

  /** The opacities multiply; a negative one counts as zero. */
  function Opacity(hops: seq<Hop>): real {
    if hops == [] then 1.0
    else
      var last := hops[|hops| - 1].opacity;
      Opacity(hops[..|hops| - 1]) * if last >= 0.0 then last else 0.0
  }

  /** Where the browser's transform puts a point of the drawing. */
  function OnCanvas(t: Flat, x: real, y: real): (real, real) {
    (x * t.a + y * t.c + t.e, x * t.b + y * t.d + t.f)
  }

  ghost predicate LandsAt(paint: Paint, spot: Spot) {
    && paint.id == spot.id && paint.clips == spot.clips && paint.alpha == Opacity(spot.hops)
    && forall x, y ::
         OnCanvas(paint.transform, x, y)
         == (Outward(spot.hops, Point(x, y, 0.0)).x, Outward(spot.hops, Point(x, y, 0.0)).y)
  }

  ghost predicate AllLand(paints: seq<Paint>, spots: seq<Spot>) {
    |paints| == |spots| && forall k | 0 <= k < |paints| :: LandsAt(paints[k], spots[k])
  }

  /** Strokes without width, styles without anything to draw and fully transparent ones are left out. */
  function StyleSpots(styles: seq<Style>, hops: seq<Hop>, clips: seq<Clip>): seq<Spot> {
    if styles == [] then []
    else
      StyleSpots(styles[..|styles| - 1], hops, clips)
      + var s := styles[|styles| - 1];
        if (s.stroke && s.width == 0.0) || !s.shouldRender || s.opacity == 0.0 || Opacity(hops) == 0.0 then []
        else [Spot(s.id, hops + [Hop(s.mat, s.opacity)], clips)]
  }

  /** Line breaks are not painted. */
  function LetterSpots(letters: seq<Letter>, hops: seq<Hop>, clips: seq<Clip>): seq<Spot> {
    if letters == [] then []
    else
      LetterSpots(letters[..|letters| - 1], hops, clips)
      + var l := letters[|letters| - 1];
        if l.newLine then [] else [Spot(l.id, if l.placed then hops + [Hop(l.mat, l.opacity)] else hops, clips)]
  }

  function ContentSpots(content: Content, hops: seq<Hop>, clips: seq<Clip>): seq<Spot>
    decreases content, 0
  {
    match content
    case Picture(id) => [Spot(id, hops, clips)]
    case Composition(id, layers) => LayersSpots(layers, hops, clips + [LayerClip(id)])
    case Shape(styles) => StyleSpots(styles, hops, clips)
    case Lettering(letters) => LetterSpots(letters, hops, clips)
  }

  /** A layer lies on top of those that follow it. */
  function LayersSpots(layers: seq<Layer>, hops: seq<Hop>, clips: seq<Clip>): seq<Spot>
    decreases layers, 0
  {
    if layers == [] then [] else LayersSpots(layers[1..], hops, clips) + LayerSpots(layers[0], hops, clips)
  }

  function LayerSpots(layer: Layer, hops: seq<Hop>, clips: seq<Clip>): seq<Spot>
    decreases layer, 1
  {
    if layer.Missing? || layer.hidden then []
    else
      ContentSpots(layer.content, hops + [Hop(layer.mat, layer.opacity)],
                   clips + if layer.masked then [MaskClip(layer.mat)] else [])
  }

  predicate FlatContent(content: Content)
    decreases content, 0
  {
    match content
    case Picture(_) => true
    case Composition(_, layers) => forall layer <- layers :: FlatLayer(layer)
    case Shape(styles) => forall s <- styles :: Flatly(s.mat)
    case Lettering(letters) => forall l <- letters :: Flatly(l.mat)
  }

  predicate FlatLayer(layer: Layer)
    decreases layer, 1
  {
    layer.Layer? ==> Flatly(layer.mat) && FlatContent(layer.content)
  }

  /** What surrounds a drawing is what the steps to it amount to. */
  ghost predicate Amounts(env: Env, hops: seq<Hop>, clips: seq<Clip>) {
    && Placement(env.mat) && env.alpha == Opacity(hops) && env.clips == clips
    && forall p :: Apply(env.mat, p) == Outward(hops, p)
  }

  lemma PlacedComposes(env: Env, t: Mat)
    ensures Placement(env.mat) && Flatly(t) ==>
              var mat := Placed(env, t).mat; Placement(mat) && forall p :: Apply(mat, p) == Apply(env.mat, Apply(t, p))
  {
    hide Apply, Transformed;
    if Placement(env.mat) && Flatly(t) {
      var mat := Placed(env, t).mat;
      TransformedComposes(t, env.mat, Point(0.0, 0.0, 0.0));
      forall p ensures Apply(mat, p) == Apply(env.mat, Apply(t, p)) {
        TransformedComposes(t, env.mat, p);
        IdentityApplies(p);
      }
    }
  }

  lemma OneHop(env: Env, hops: seq<Hop>, clips: seq<Clip>, mat: Mat, opacity: real)
    requires Amounts(env, hops, clips) && Flatly(mat)
    ensures Amounts(Faded(Placed(env, mat), opacity), hops + [Hop(mat, opacity)], clips)
    ensures Amounts(Placed(Faded(env, opacity), mat), hops + [Hop(mat, opacity)], clips)
  {
    hide Apply, Transformed, Placement;
    var more := hops + [Hop(mat, opacity)];
    assert more[..|hops|] == hops;
    PlacedComposes(env, mat);
    PlacedComposes(Faded(env, opacity), mat);
    assert env.alpha * 0.0 == 0.0;
  }

  lemma PaintLands(id: int, env: Env, blend: int, hops: seq<Hop>, clips: seq<Clip>)
    requires Amounts(env, hops, clips)
    ensures AllLand([PaintIn(id, env, blend)], [Spot(id, hops, clips)])
  {
    hide Outward, Opacity, Apply, OnCanvas;
    forall x, y {
      FlatApplies(env.mat, x, y);
    }
  }

  lemma FlatApplies(m: Mat, x: real, y: real)
    ensures OnCanvas(FlatOf(m), x, y) == (Apply(m, Point(x, y, 0.0)).x, Apply(m, Point(x, y, 0.0)).y)
  {
    var t := FlatOf(m);
    WithoutDepth(x, y, t.a, t.c, m.m8, t.e);
    WithoutDepth(x, y, t.b, t.d, m.m9, t.f);
    hide Affinely;
    assert OnCanvas(t, x, y).0 == Apply(m, Point(x, y, 0.0)).x;
    assert OnCanvas(t, x, y).1 == Apply(m, Point(x, y, 0.0)).y;
  }

  lemma WithoutDepth(x: real, y: real, a: real, b: real, c: real, d: real)
    ensures Affinely(x, y, 0.0, a, b, c, d) == x * a + y * b + d
  {
  }

  lemma LandConcat(a: seq<Paint>, b: seq<Paint>, s: seq<Spot>, t: seq<Spot>)
    requires AllLand(a, s) && AllLand(b, t)
    ensures AllLand(a + b, s + t)
  {
    hide LandsAt;
  }

  lemma {:induction false} StylesLand(styles: seq<Style>, env: Env, blend: int, hops: seq<Hop>, clips: seq<Clip>)
    requires Amounts(env, hops, clips) && forall s <- styles :: Flatly(s.mat)
    ensures AllLand(StylePaints(styles, env, blend), StyleSpots(styles, hops, clips))
  {
    hide Amounts, Flatly, LandsAt, Placed, Faded, PaintIn, Opacity;
    if styles != [] {
      var s := styles[|styles| - 1];
      assert s in styles;
      StylesLand(styles[..|styles| - 1], env, blend, hops, clips);
      AmountsAlpha(env, hops, clips);
      OneHop(env, hops, clips, s.mat, s.opacity);
      PaintLands(s.id, Placed(Faded(env, s.opacity), s.mat), blend, hops + [Hop(s.mat, s.opacity)], clips);
    }
  }

  lemma AmountsAlpha(env: Env, hops: seq<Hop>, clips: seq<Clip>)
    requires Amounts(env, hops, clips)
    ensures env.alpha == Opacity(hops) && env.clips == clips
  {
  }

  lemma {:induction false} LettersLand(letters: seq<Letter>, env: Env, blend: int, hops: seq<Hop>, clips: seq<Clip>)
    requires Amounts(env, hops, clips) && forall l <- letters :: Flatly(l.mat)
    ensures AllLand(LetterPaints(letters, env, blend), LetterSpots(letters, hops, clips))
  {
    hide Amounts, Flatly, LandsAt, Placed, Faded, PaintIn, Opacity;
    if letters != [] {
      var l := letters[|letters| - 1];
      assert l in letters;
      LettersLand(letters[..|letters| - 1], env, blend, hops, clips);
      OneHop(env, hops, clips, l.mat, l.opacity);
      PaintLands(l.id, env, blend, hops, clips);
      PaintLands(l.id, Faded(Placed(env, l.mat), l.opacity), blend, hops + [Hop(l.mat, l.opacity)], clips);
    }
  }

  /** Every paint of a layer lands where its own matrix and then those of the enclosing layers, from the
      inside out, put it, as opaque as all their opacities multiply to, inside all their clips. */
  lemma {:induction false} SceneLands(layer: Layer, env: Env, blend: int, hops: seq<Hop>, clips: seq<Clip>)
    requires Amounts(env, hops, clips) && FlatLayer(layer)
    ensures AllLand(Scene(layer, env, blend), LayerSpots(layer, hops, clips))
    decreases layer, 2
  {
    hide Amounts, Flatly, LandsAt, Placed, Faded, Blended;
    if layer.Layer? && !layer.hidden {
      var env1 := if layer.masked then Clipped(env, MaskClip(layer.mat)) else env;
      var clips1 := clips + if layer.masked then [MaskClip(layer.mat)] else [];
      AmountsClipped(env, hops, clips, MaskClip(layer.mat));
      assert clips + [] == clips;
      OneHop(env1, hops, clips1, layer.mat, layer.opacity);
      ContentLands(layer.content, Inner(layer, env1), Blended(layer, blend),
                   hops + [Hop(layer.mat, layer.opacity)], clips1);
    }
  }

  lemma AmountsClipped(env: Env, hops: seq<Hop>, clips: seq<Clip>, clip: Clip)
    requires Amounts(env, hops, clips)
    ensures Amounts(Clipped(env, clip), hops, clips + [clip])
  {
  }

  lemma {:induction false} ContentLands(content: Content, env: Env, blend: int, hops: seq<Hop>, clips: seq<Clip>)
    requires Amounts(env, hops, clips) && FlatContent(content)
    ensures AllLand(ContentPaints(content, env, blend), ContentSpots(content, hops, clips))
    decreases content, 1
  {
    hide Amounts, Flatly, LandsAt, PaintIn;
    match content
    case Picture(id) => PaintLands(id, env, blend, hops, clips);
    case Composition(id, layers) =>
      AmountsClipped(env, hops, clips, LayerClip(id));
      LayersLand(layers, Clipped(env, LayerClip(id)), blend, hops, clips + [LayerClip(id)]);
    case Shape(styles) => StylesLand(styles, env, blend, hops, clips);
    case Lettering(letters) => LettersLand(letters, env, blend, hops, clips);
  }

  lemma {:induction false} LayersLand(layers: seq<Layer>, env: Env, blend: int, hops: seq<Hop>, clips: seq<Clip>)
    requires Amounts(env, hops, clips) && forall layer <- layers :: FlatLayer(layer)
    ensures AllLand(LayersPaints(layers, env, blend), LayersSpots(layers, hops, clips))
    decreases layers, 0
  {
    hide Amounts, LandsAt;
    if layers != [] {
      var before := BlendAfterAll(layers[1..], blend);
      LayersLand(layers[1..], env, blend, hops, clips);
      SceneLands(layers[0], env, before, hops, clips);
      LandConcat(LayersPaints(layers[1..], env, blend), Scene(layers[0], env, before),
                 LayersSpots(layers[1..], hops, clips), LayerSpots(layers[0], hops, clips));
    }
  }

  // ----- blend modes -----

  /** The scene without any state: every paint has its own layer's mode. */
  function Stateless(layer: Layer, env: Env): seq<Paint>
    decreases layer, 1
  {
    if layer.Missing? || layer.hidden then []
    else
      var env1 := if layer.masked then Clipped(env, MaskClip(layer.mat)) else env;
      StatelessContent(layer.content, Inner(layer, env1), layer.blend)
  }

  function StatelessContent(content: Content, env: Env, blend: int): seq<Paint>
    decreases content, 0
  {
    match content
    case Composition(id, layers) => StatelessLayers(layers, Clipped(env, LayerClip(id)))
    case _ => ContentPaints(content, env, blend)
  }

  function StatelessLayers(layers: seq<Layer>, env: Env): seq<Paint>
    decreases layers, 0
  {
    if layers == [] then [] else StatelessLayers(layers[1..], env) + Stateless(layers[0], env)
  }

  /** Every layer that is drawn has a mode that the browser knows. */
  predicate OwnBlends(layer: Layer)
    decreases layer, 1
  {
    layer.Missing? || layer.hidden || (Known(layer.blend) && ContentOwn(layer.content))
  }

  predicate ContentOwn(content: Content)
    decreases content, 0
  {
    content.Composition? ==> forall layer <- content.layers :: OwnBlends(layer)
  }

  /** With known modes what is drawn is the scene without state: nothing that was drawn before a
      layer matters. */
  lemma {:induction false} SceneIsStateless(layer: Layer, env: Env, blend: int)
    requires OwnBlends(layer)
    ensures Scene(layer, env, blend) == Stateless(layer, env)
    decreases layer, 1
  {
    if layer.Layer? && !layer.hidden && layer.content.Composition? {
      var env1 := if layer.masked then Clipped(env, MaskClip(layer.mat)) else env;
      var inside := Clipped(Inner(layer, env1), LayerClip(layer.content.id));
      LayersAreStateless(layer.content.layers, inside, layer.blend);
      assert StatelessContent(layer.content, Inner(layer, env1), layer.blend)
             == StatelessLayers(layer.content.layers, inside);
      assert ContentPaints(layer.content, Inner(layer, env1), layer.blend)
             == LayersPaints(layer.content.layers, inside, layer.blend);
    }
  }

  lemma {:induction false} LayersAreStateless(layers: seq<Layer>, env: Env, blend: int)
    requires forall layer <- layers :: OwnBlends(layer)
    ensures LayersPaints(layers, env, blend) == StatelessLayers(layers, env)
    decreases layers, 0
  {
    if layers != [] {
      LayersAreStateless(layers[1..], env, blend);
      SceneIsStateless(layers[0], env, BlendAfterAll(layers[1..], blend));
    }
  }

  /** A picture depends on what was drawn before exactly when its own mode is not known. */
  lemma PictureInheritsIff(layer: Layer, env: Env, before: int, other: int)
    requires layer.Layer? && !layer.hidden && layer.content.Picture? && before != other
    ensures Scene(layer, env, before) != Scene(layer, env, other) <==> !Known(layer.blend)
  {
    var env1 := Inner(layer, if layer.masked then Clipped(env, MaskClip(layer.mat)) else env);
    PictureScene(layer, env, before);
    PictureScene(layer, env, other);
    assert PaintIn(layer.content.id, env1, Blended(layer, before)).blend == Blended(layer, before);
  }

  lemma PictureScene(layer: Layer, env: Env, blend: int)
    requires layer.Layer? && !layer.hidden && layer.content.Picture?
    ensures var env1 := Inner(layer, if layer.masked then Clipped(env, MaskClip(layer.mat)) else env);
            Scene(layer, env, blend) == [PaintIn(layer.content.id, env1, Blended(layer, blend))]
  {
    var env1 := Inner(layer, if layer.masked then Clipped(env, MaskClip(layer.mat)) else env);
    assert ContentPaints(layer.content, env1, Blended(layer, blend))
           == [PaintIn(layer.content.id, env1, Blended(layer, blend))];
  }
}
