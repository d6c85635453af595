/** The sprite arithmetic of `renderBouquet`: the size and placement of one bouquet on a
    canvas of a given pixel size. */
module Geometry {
  import opened Bouquets

  /** One `drawImage` call as `renderBouquet` issues it: the context is translated to
      (originX, originY) and rotated by `rotation`, then the image is drawn into the
      rectangle (left, top, width, height) of that rotated frame. */
  datatype Sprite = Sprite(originX: real, originY: real, rotation: real,
                           left: real, top: real, width: real, height: real)

  function Min(a: real, b: real): real { if a <= b then a else b }

  function Max(a: real, b: real): real { if a >= b then a else b }

  /** The undepth-scaled width: a tenth of the canvas width times the bouquet's scale,
      clamped to [130, 200] pixels. */
  function BaseWidth(canvasWidth: nat, scale: real): (w: real)
    ensures 130.0 <= w <= 200.0
    ensures var naive := canvasWidth as real * 0.1 * scale;
      (130.0 <= naive <= 200.0 ==> w == naive)
      && (naive < 130.0 ==> w == 130.0)
      && (naive > 200.0 ==> w == 200.0)
  {
    var naiveWidth := canvasWidth as real * BouquetAvgScale * scale;
    Min(Max(naiveWidth, BouquetMinWidth), BouquetMaxWidth)
  }

  /** The undepth-scaled height: the image's aspect ratio applied to the width. */
  function BaseHeight(w: real, image: LoadedImage): (h: real)
    ensures h * image.naturalWidth as real == w * image.naturalHeight as real
    ensures w >= 0.0 ==> h >= 0.0
  {
    w * image.naturalHeight as real / image.naturalWidth as real
  }

  /** Where `renderBouquet` draws `b` on a canvas of `canvasWidth` by `canvasHeight` pixels. */
  function Place(canvasWidth: nat, canvasHeight: nat, b: Bouquet): (s: Sprite)
    ensures var w := BaseWidth(canvasWidth, b.scale);
      var h := BaseHeight(w, b.image);
      && s.width == w * b.transform.z
      && s.height == h * b.transform.z
      // the image is centred on the translated origin and turned by the bouquet's rotation
      && s.left == -s.width / 2.0 && s.top == -s.height / 2.0
      && s.rotation == b.transform.rotation
      // the drawn sprite's top-left corner (before rotation) sits at the bouquet's position
      // less half of the undepth-scaled sprite
      && s.originX - s.width / 2.0 == b.transform.x * canvasWidth as real - w / 2.0
      && s.originY - s.height / 2.0 == b.transform.y * canvasHeight as real - h / 2.0
  {
    var w := BaseWidth(canvasWidth, b.scale);
    var h := BaseHeight(w, b.image);
    var vw := w * b.transform.z;
    var vh := h * b.transform.z;
    var x := b.transform.x * canvasWidth as real - w / 2.0;
    var y := b.transform.y * canvasHeight as real - h / 2.0;
    var hw := vw / 2.0;
    var hh := vh / 2.0;
    Sprite(x + hw, y + hh, b.transform.rotation, -hw, -hh, vw, vh)
  }

  /** The drawn rectangle keeps the image's aspect ratio and lies between 130 and 200 pixels
      wide times the depth. */
  lemma PlaceKeepsAspect(canvasWidth: nat, canvasHeight: nat, b: Bouquet)
    ensures var s := Place(canvasWidth, canvasHeight, b);
      s.width * b.image.naturalHeight as real == s.height * b.image.naturalWidth as real
      && (b.transform.z >= 0.0 ==> 130.0 * b.transform.z <= s.width <= 200.0 * b.transform.z)
  {
    var s := Place(canvasWidth, canvasHeight, b);
    var w := BaseWidth(canvasWidth, b.scale);
    ScaledSize(s.width, s.height, w, BaseHeight(w, b.image), b.transform.z,
               b.image.naturalWidth as real, b.image.naturalHeight as real);
  }

  /** A w by h rectangle with h/w = nh/nw and w in [130, 200], scaled by the depth z. */
  lemma ScaledSize(sw: real, sh: real, w: real, h: real, z: real, nw: real, nh: real)
    requires sw == w * z && sh == h * z
    requires h * nw == w * nh && 130.0 <= w <= 200.0
    ensures sw * nh == sh * nw
    ensures z >= 0.0 ==> 130.0 * z <= sw <= 200.0 * z
  {
    ScaledKeepsRatio(w, h, z, nw, nh);
    ScaledWidthBounds(w, z);
  }

  /** Scaling both sides by the same depth keeps a ratio. */
  lemma ScaledKeepsRatio(w: real, h: real, z: real, nw: real, nh: real)
    requires h * nw == w * nh
    ensures (w * z) * nh == (h * z) * nw
  {
    calc {
      (w * z) * nh;
      (w * nh) * z;
      (h * nw) * z;
      (h * z) * nw;
    }
  }

  /** A width in [130, 200] scaled by a non-negative depth lies in [130, 200] times that depth. */
  lemma ScaledWidthBounds(w: real, z: real)
    requires 130.0 <= w <= 200.0
    ensures z >= 0.0 ==> 130.0 * z <= w * z <= 200.0 * z
  {
    if z >= 0.0 {
      MulMonotone(130.0, w, z);
      MulMonotone(w, 200.0, z);
    }
  }

  lemma MulMonotone(a: real, b: real, z: real)
    requires a <= b && z >= 0.0
    ensures a * z <= b * z
  {
  }

  /** At full depth (z = 1, as spawned) the sprite is centred on the bouquet's position. */
  lemma PlaceAtFullDepth(canvasWidth: nat, canvasHeight: nat, b: Bouquet)
    requires b.transform.z == 1.0
    ensures Place(canvasWidth, canvasHeight, b).originX == b.transform.x * canvasWidth as real
    ensures Place(canvasWidth, canvasHeight, b).originY == b.transform.y * canvasHeight as real
  {
  }

  /** The sprite is centred only at full depth: at any other depth the sprite is off-centre horizontally. */
  lemma CentredOnlyAtFullDepth(canvasWidth: nat, canvasHeight: nat, b: Bouquet)
    ensures Place(canvasWidth, canvasHeight, b).originX == b.transform.x * canvasWidth as real
        ==> b.transform.z == 1.0
  {
    var s := Place(canvasWidth, canvasHeight, b);
    var w := BaseWidth(canvasWidth, b.scale);
    assert s.originX - b.transform.x * canvasWidth as real == (s.width - w) / 2.0;
    ScaleFixesOnlyAtOne(s.width, w, b.transform.z);
  }

  /** A positive width scaled by z is unchanged only when z is 1. */
  lemma ScaleFixesOnlyAtOne(sw: real, w: real, z: real)
    requires sw == w * z && w > 0.0
    ensures sw == w ==> z == 1.0
  {
    if z > 1.0 {
      assert w * z - w == w * (z - 1.0);
      assert w * (z - 1.0) > 0.0;
    } else if z < 1.0 {
      assert w - w * z == w * (1.0 - z);
      assert w * (1.0 - z) > 0.0;
    }
  }
}
