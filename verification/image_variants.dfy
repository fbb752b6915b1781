/** The image pre-processing of CaptureLingo's OCR service: upscaling,
    enhancement, inversion, the cloud-retry image and the ordered list of
    local OCR variants. Pixel work is opaque: every Core Graphics / Core
    Image step is a function that may fail (nil). */
module ImageVariants {
  import opened Wrappers

  /** An opaque bitmap handle with its pixel size. */
  datatype Image = Image(id: nat, width: nat, height: nat)

  /** Parameters of the colour-controls filter. */
  datatype ColorControls = ColorControls(saturation: real, contrast: real, brightness: real)

  /** The framework image operations, each nil on failure. */
  datatype ImageOps = ImageOps(
    drawScaled: (Image, nat, nat) -> Option<Image>,           // CGContext of that size, high-quality draw, makeImage
    colorControls: (Image, ColorControls) -> Option<Image>,   // CIColorControls: filter creation and outputImage
    sharpenLuminance: (Image, real) -> Option<Image>,         // CISharpenLuminance: filter creation and outputImage
    colorInvert: Image -> Option<Image>,                      // CIColorInvert: filter creation and outputImage
    render: Image -> Option<Image>,                           // CIContext.createCGImage over the output extent
    encodePNG: Image -> Option<seq<bv8>>,                     // NSBitmapImageRep PNG representation
    encodeJPEG: (Image, real) -> Option<seq<bv8>>)            // NSBitmapImageRep JPEG at a compression factor

  /** Full desaturation, contrast 1.9, brightness +0.05. */
  const EnhanceControls := ColorControls(0.0, 1.9, 0.05)

  const SharpenStrength: real := 0.7

  /** The upscale factor of the scaled and cloud-retry images. */
  const UpscaleFactor: real := 2.0

  /** `max(1, Int(CGFloat(d) * scale))` for a positive scale; `Int(_)`
      truncates, which is the floor for a non-negative product. */
  function ScaledDimension(d: nat, scale: real): (r: nat)
    requires scale > 0.0
    ensures r >= 1
    ensures r as real <= d as real * scale || r == 1
    ensures d as real * scale < r as real + 1.0
  {
    var f := (d as real * scale).Floor;
    if f < 1 then 1 else f
  }

  /** `makeScaledImage`: a scale of at most 1 hands back the input itself. */
  function MakeScaledImage(ops: ImageOps, image: Image, scale: real): (r: Option<Image>)
    ensures scale <= 1.0 ==> r == Some(image)
    ensures scale > 1.0 ==>
      r == ops.drawScaled(image, ScaledDimension(image.width, scale), ScaledDimension(image.height, scale))
  {
    if scale <= 1.0 then Some(image)
    else
      var width := ScaledDimension(image.width, scale);
      var height := ScaledDimension(image.height, scale);
      ops.drawScaled(image, width, height)
  }

  /** `makeEnhancedImage`: a colour-controls failure gives nil; a sharpening
      failure is tolerated and the unsharpened output is rendered instead. */
  function MakeEnhancedImage(ops: ImageOps, image: Image): (r: Option<Image>)
    ensures ops.colorControls(image, EnhanceControls).None? ==> r.None?
    ensures ops.colorControls(image, EnhanceControls).Some? ==>
      var controlled := ops.colorControls(image, EnhanceControls).value;
      r == ops.render(ops.sharpenLuminance(controlled, SharpenStrength).GetOr(controlled))
  {
    match ops.colorControls(image, EnhanceControls)
    case None => None
    case Some(output) =>
      var sharpened := ops.sharpenLuminance(output, SharpenStrength).GetOr(output);
      ops.render(sharpened)
  }

  /** `makeInvertedImage`: the rendered output of the invert filter; nil
      when the filter or the render fails. */
  function MakeInvertedImage(ops: ImageOps, image: Image): (r: Option<Image>)
    ensures ops.colorInvert(image).None? ==> r.None?
    ensures r.Some? <==> ops.colorInvert(image).Some? && ops.render(ops.colorInvert(image).value).Some?
    ensures r.Some? ==> r == ops.render(ops.colorInvert(image).value)
  {
    match ops.colorInvert(image)
    case None => None
    case Some(output) => ops.render(output)
  }

  /** `makeCloudRetryImage`: the 2x image, enhanced when enhancement works
      and plain otherwise; nil only when scaling fails. */
  function MakeCloudRetryImage(ops: ImageOps, image: Image): (r: Option<Image>)
    ensures r.Some? <==> MakeScaledImage(ops, image, UpscaleFactor).Some?
    ensures r.Some? ==>
      var scaled := MakeScaledImage(ops, image, UpscaleFactor).value;
      r.value == if MakeEnhancedImage(ops, scaled).Some? then MakeEnhancedImage(ops, scaled).value else scaled
  {
    match MakeScaledImage(ops, image, UpscaleFactor)
    case None => None
    case Some(scaled) => Some(MakeEnhancedImage(ops, scaled).GetOr(scaled))
  }

  /** Where a local OCR variant came from. */
  datatype VariantTag =
    | Identity
    | Scaled
    | CloudRetry
    | InvertedCloudRetry
    | Enhanced
    | InvertedEnhanced

  /** A local OCR input image with the transform that produced it. */
  datatype Variant = Variant(tag: VariantTag, image: Image)

  function OneIfPresent(tag: VariantTag, image: Option<Image>): seq<Variant> {
    match image
    case Some(i) => [Variant(tag, i)]
    case None => []
  }

  /** `makeLocalOCRVariants`: the input, its 2x image, the cloud-retry image
      followed by its inversion, the enhanced input followed by its
      inversion; every derived variant whose generator fails is dropped. */
  function MakeLocalOCRVariants(ops: ImageOps, image: Image): seq<Variant> {
    var retry := MakeCloudRetryImage(ops, image);
    var enhanced := MakeEnhancedImage(ops, image);
    [Variant(Identity, image)]
    + OneIfPresent(Scaled, MakeScaledImage(ops, image, UpscaleFactor))
    + (match retry
       case Some(r) => [Variant(CloudRetry, r)] + OneIfPresent(InvertedCloudRetry, MakeInvertedImage(ops, r))
       case None => [])
    + (match enhanced
       case Some(e) => [Variant(Enhanced, e)] + OneIfPresent(InvertedEnhanced, MakeInvertedImage(ops, e))
       case None => [])
  }

  // ----------------------------------------------- reference definition

  /** The fixed position of each transform in the variant order. */
  function Rank(t: VariantTag): nat {
    match t
    case Identity => 0
    case Scaled => 1
    case CloudRetry => 2
    case InvertedCloudRetry => 3
    case Enhanced => 4
    case InvertedEnhanced => 5
  }

  /** The source an inverted variant is derived from. */
  function InversionSource(t: VariantTag): Option<VariantTag> {
    match t
    case InvertedCloudRetry => Some(CloudRetry)
    case InvertedEnhanced => Some(Enhanced)
    case _ => None
  }

  function Bind(o: Option<Image>, f: Image -> Option<Image>): Option<Image> {
    match o
    case Some(i) => f(i)
    case None => None
  }

  /** What each transform yields for `image`, on its own. */
  function Generate(ops: ImageOps, image: Image, t: VariantTag): Option<Image> {
    match t
    case Identity => Some(image)
    case Scaled => MakeScaledImage(ops, image, UpscaleFactor)
    case CloudRetry => MakeCloudRetryImage(ops, image)
    case InvertedCloudRetry => Bind(MakeCloudRetryImage(ops, image), i => MakeInvertedImage(ops, i))
    case Enhanced => MakeEnhancedImage(ops, image)
    case InvertedEnhanced => Bind(MakeEnhancedImage(ops, image), i => MakeInvertedImage(ops, i))
  }

  const AllTags: seq<VariantTag> :=
    [Identity, Scaled, CloudRetry, InvertedCloudRetry, Enhanced, InvertedEnhanced]

  /** Every transform of `tags` that succeeds, in the order of `tags`. */
  function Collect(ops: ImageOps, image: Image, tags: seq<VariantTag>): seq<Variant> {
    if tags == [] then []
    else OneIfPresent(tags[0], Generate(ops, image, tags[0])) + Collect(ops, image, tags[1..])
  }

  // ---------------------------------------------------------------- lemmas

  /** Collecting from a list of tags is collecting its head, then its
      tail. */
  lemma CollectCons(ops: ImageOps, image: Image, t: VariantTag, rest: seq<VariantTag>)
    ensures Collect(ops, image, [t] + rest) == OneIfPresent(t, Generate(ops, image, t)) + Collect(ops, image, rest)
  {
    assert ([t] + rest)[0] == t;
    assert ([t] + rest)[1..] == rest;
  }

  lemma AppendAssoc(a: seq<Variant>, b: seq<Variant>, c: seq<Variant>)
    ensures (a + b) + c == a + (b + c)
  {
  }

  /** A source image followed by its inversion, as the list builds them. */
  lemma InvertedPair(ops: ImageOps, source: Option<Image>, t: VariantTag, inverted: VariantTag)
    ensures (match source
             case Some(r) => [Variant(t, r)] + OneIfPresent(inverted, MakeInvertedImage(ops, r))
             case None => [])
         == OneIfPresent(t, source) + OneIfPresent(inverted, Bind(source, i => MakeInvertedImage(ops, i)))
  {
  }

  /** What each transform yields, spelled out. */
  lemma GenerateSpelled(ops: ImageOps, image: Image)
    ensures Generate(ops, image, Identity) == Some(image)
    ensures Generate(ops, image, Scaled) == MakeScaledImage(ops, image, UpscaleFactor)
    ensures Generate(ops, image, CloudRetry) == MakeCloudRetryImage(ops, image)
    ensures Generate(ops, image, InvertedCloudRetry) == Bind(MakeCloudRetryImage(ops, image), i => MakeInvertedImage(ops, i))
    ensures Generate(ops, image, Enhanced) == MakeEnhancedImage(ops, image)
    ensures Generate(ops, image, InvertedEnhanced) == Bind(MakeEnhancedImage(ops, image), i => MakeInvertedImage(ops, i))
  {
  }

  /** The variant of transform `t`, if it succeeds. */
  function Attempt(ops: ImageOps, image: Image, t: VariantTag): seq<Variant> {
    OneIfPresent(t, Generate(ops, image, t))
  }

  lemma CollectAllTags(ops: ImageOps, image: Image)
    ensures Collect(ops, image, AllTags)
         == Attempt(ops, image, Identity) + (Attempt(ops, image, Scaled) + (Attempt(ops, image, CloudRetry)
            + (Attempt(ops, image, InvertedCloudRetry) + (Attempt(ops, image, Enhanced) + Attempt(ops, image, InvertedEnhanced)))))
  {
    CollectCons(ops, image, InvertedEnhanced, []);
    CollectCons(ops, image, Enhanced, [InvertedEnhanced]);
    CollectCons(ops, image, InvertedCloudRetry, [Enhanced, InvertedEnhanced]);
    CollectCons(ops, image, CloudRetry, [InvertedCloudRetry, Enhanced, InvertedEnhanced]);
    CollectCons(ops, image, Scaled, [CloudRetry, InvertedCloudRetry, Enhanced, InvertedEnhanced]);
    CollectCons(ops, image, Identity, [Scaled, CloudRetry, InvertedCloudRetry, Enhanced, InvertedEnhanced]);
    assert Attempt(ops, image, InvertedEnhanced) + [] == Attempt(ops, image, InvertedEnhanced);
  }

  lemma VariantsByAttempt(ops: ImageOps, image: Image)
    ensures MakeLocalOCRVariants(ops, image)
         == ((Attempt(ops, image, Identity) + Attempt(ops, image, Scaled))
            + (Attempt(ops, image, CloudRetry) + Attempt(ops, image, InvertedCloudRetry)))
            + (Attempt(ops, image, Enhanced) + Attempt(ops, image, InvertedEnhanced))
  {
    GenerateSpelled(ops, image);
    InvertedPair(ops, MakeCloudRetryImage(ops, image), CloudRetry, InvertedCloudRetry);
    InvertedPair(ops, MakeEnhancedImage(ops, image), Enhanced, InvertedEnhanced);
  }

  /** The variant list is exactly the successful transforms in rank order. */
  lemma VariantsAreCollected(ops: ImageOps, image: Image)
    ensures MakeLocalOCRVariants(ops, image) == Collect(ops, image, AllTags)
  {
    var g0, g1 := Attempt(ops, image, Identity), Attempt(ops, image, Scaled);
    var g2, g3 := Attempt(ops, image, CloudRetry), Attempt(ops, image, InvertedCloudRetry);
    var g4, g5 := Attempt(ops, image, Enhanced), Attempt(ops, image, InvertedEnhanced);
    CollectAllTags(ops, image);
    VariantsByAttempt(ops, image);
    AppendAssoc(g0 + g1, g2 + g3, g4 + g5);
    AppendAssoc(g0, g1, (g2 + g3) + (g4 + g5));
    AppendAssoc(g2, g3, g4 + g5);
  }

  /** Every collected variant carries a tag of `tags` and the image its
      transform yields. */
  lemma {:induction false} CollectSound(ops: ImageOps, image: Image, tags: seq<VariantTag>)
    ensures var vs := Collect(ops, image, tags);
      && |vs| <= |tags|
      && forall i :: 0 <= i < |vs| ==> vs[i].tag in tags && Generate(ops, image, vs[i].tag) == Some(vs[i].image)
  {
    if tags != [] {
      CollectSound(ops, image, tags[1..]);
    }
  }

  /** Every transform of `tags` that succeeds is collected. */
  lemma {:induction false} CollectComplete(ops: ImageOps, image: Image, tags: seq<VariantTag>, t: VariantTag)
    requires t in tags && Generate(ops, image, t).Some?
    ensures exists i :: 0 <= i < |Collect(ops, image, tags)| && Collect(ops, image, tags)[i].tag == t
  {
    var head := OneIfPresent(tags[0], Generate(ops, image, tags[0]));
    var tail := Collect(ops, image, tags[1..]);
    assert Collect(ops, image, tags) == head + tail;
    if t == tags[0] {
      assert Collect(ops, image, tags)[0].tag == t;
    } else {
      CollectComplete(ops, image, tags[1..], t);
      var i :| 0 <= i < |tail| && tail[i].tag == t;
      assert Collect(ops, image, tags)[|head| + i] == tail[i];
    }
  }

  /** Collecting from tags in increasing rank keeps the ranks increasing. */
  lemma {:induction false} CollectOrdered(ops: ImageOps, image: Image, tags: seq<VariantTag>)
    requires forall i, j :: 0 <= i < j < |tags| ==> Rank(tags[i]) < Rank(tags[j])
    ensures var vs := Collect(ops, image, tags);
      forall i, j :: 0 <= i < j < |vs| ==> Rank(vs[i].tag) < Rank(vs[j].tag)
  {
    if tags != [] {
      var rest := tags[1..];
      CollectOrdered(ops, image, rest);
      CollectSound(ops, image, rest);
      var head := OneIfPresent(tags[0], Generate(ops, image, tags[0]));
      var tail := Collect(ops, image, rest);
      var vs := head + tail;
      forall i, j | 0 <= i < j < |vs| ensures Rank(vs[i].tag) < Rank(vs[j].tag) {
        if i < |head| {
          assert vs[j] == tail[j - |head|];
          var k :| 0 <= k < |rest| && rest[k] == vs[j].tag;
          assert tags[k + 1] == rest[k];
        } else {
          assert vs[i] == tail[i - |head|] && vs[j] == tail[j - |head|];
        }
      }
    }
  }

  /** In a rank-ordered list that holds every successful transform, each
      inverted variant sits right after the image it inverts. */
  lemma InversionAdjacent(ops: ImageOps, image: Image, vs: seq<Variant>, i: nat)
    requires forall a, b :: 0 <= a < b < |vs| ==> Rank(vs[a].tag) < Rank(vs[b].tag)
    requires forall a :: 0 <= a < |vs| ==> Generate(ops, image, vs[a].tag) == Some(vs[a].image)
    requires forall t :: Generate(ops, image, t).Some? ==> exists a :: 0 <= a < |vs| && vs[a].tag == t
    requires i < |vs| && InversionSource(vs[i].tag).Some?
    ensures 0 < i && vs[i - 1].tag == InversionSource(vs[i].tag).value
    ensures MakeInvertedImage(ops, vs[i - 1].image) == Some(vs[i].image)
  {
    var src := InversionSource(vs[i].tag).value;
    assert Generate(ops, image, src).Some?;
    var j :| 0 <= j < |vs| && vs[j].tag == src;
    assert Rank(src) + 1 == Rank(vs[i].tag);
  }

  /** The local OCR variants start with the input itself and number one to
      six. */
  lemma VariantListBounds(ops: ImageOps, image: Image)
    ensures var vs := MakeLocalOCRVariants(ops, image);
      1 <= |vs| <= 6 && vs[0] == Variant(Identity, image)
  {
    VariantsAreCollected(ops, image);
    CollectSound(ops, image, AllTags);
    assert Collect(ops, image, AllTags)[0] == Variant(Identity, image);
  }

  /** The local OCR variants follow the fixed transform order with no
      transform twice, each is present exactly when its transform succeeds
      and carries that transform's image, and every inverted variant
      directly follows the image it inverts. */
  lemma VariantListShape(ops: ImageOps, image: Image)
    ensures var vs := MakeLocalOCRVariants(ops, image);
      && (forall i, j :: 0 <= i < j < |vs| ==> Rank(vs[i].tag) < Rank(vs[j].tag))
      && (forall i :: 0 <= i < |vs| ==> Generate(ops, image, vs[i].tag) == Some(vs[i].image))
      && (forall t :: Generate(ops, image, t).Some? ==> exists i :: 0 <= i < |vs| && vs[i].tag == t)
      && (forall i :: 0 <= i < |vs| && InversionSource(vs[i].tag).Some? ==>
            0 < i && vs[i - 1].tag == InversionSource(vs[i].tag).value
            && MakeInvertedImage(ops, vs[i - 1].image) == Some(vs[i].image))
  {
    VariantsAreCollected(ops, image);
    var vs := Collect(ops, image, AllTags);
    CollectSound(ops, image, AllTags);
    CollectOrdered(ops, image, AllTags);
    forall t | Generate(ops, image, t).Some?
      ensures exists i :: 0 <= i < |vs| && vs[i].tag == t
    {
      assert t in AllTags by { match t { case _ => } }
      CollectComplete(ops, image, AllTags, t);
    }
    forall i | 0 <= i < |vs| && InversionSource(vs[i].tag).Some?
      ensures 0 < i && vs[i - 1].tag == InversionSource(vs[i].tag).value
      ensures MakeInvertedImage(ops, vs[i - 1].image) == Some(vs[i].image)
    {
      InversionAdjacent(ops, image, vs, i);
    }
  }
}
