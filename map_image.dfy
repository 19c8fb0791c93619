/**
 * MapImage: the panel that shows the part of the map image inside the clip
 * rectangle (clipX, clipY, clipW, clipH). Panning moves the clip and clamps it
 * into the image, resizing sets the clip to the smaller of the view and the
 * image, a new image resets the clip, and clicks advance the editing mode,
 * cropping the map when the lower-right crop corner is placed.
 */
module MapView {
  import opened SessionState

  /** The clip rectangle. */
  datatype Clip = Clip(x: int, y: int, w: int, h: int)

  /** The clip lies inside an image of the given size. */
  predicate InImage(c: Clip, imageW: int, imageH: int)
  {
    0 <= c.x && c.x + c.w <= imageW && 0 <= c.y && c.y + c.h <= imageH
  }

  /** The conditional expression resize uses: a if it is smaller than b, else b. */
  function Min(a: int, b: int): (r: int)
    ensures r <= a && r <= b
    ensures r == a || r == b
  {
    if a < b then a else b
  }

  /**
   * One axis of pan: move by delta, then clamp to 0 if the clip starts before
   * the image, or else to limit - size if it ends after it.
   */
  function PanAxis(pos: int, delta: int, size: int, limit: int): (r: int)
    ensures 0 <= pos + delta <= limit - size ==> r == pos + delta
    ensures size <= limit ==> 0 <= r && r + size <= limit
    ensures r == pos + delta || r == 0 || r == limit - size
    ensures pos + delta < 0 ==> r == 0
    ensures 0 <= pos + delta && pos + delta + size > limit ==> r == limit - size
  {
    var moved := pos + delta;
    if moved < 0 then 0
    else if moved + size > limit then limit - size
    else moved
  }

  /** The clip after pan(dx, dy). */
  function Panned(c: Clip, dx: int, dy: int, imageW: int, imageH: int): (r: Clip)
    ensures r.w == c.w && r.h == c.h
    ensures c.w <= imageW && c.h <= imageH ==> InImage(r, imageW, imageH)
    ensures InImage(c.(x := c.x + dx, y := c.y + dy), imageW, imageH) ==> r == c.(x := c.x + dx, y := c.y + dy)
    ensures c.x + dx < 0 ==> r.x == 0
    ensures 0 <= c.x + dx && c.x + dx + c.w > imageW ==> r.x == imageW - c.w
    ensures c.y + dy < 0 ==> r.y == 0
    ensures 0 <= c.y + dy && c.y + dy + c.h > imageH ==> r.y == imageH - c.h
  {
    c.(x := PanAxis(c.x, dx, c.w, imageW), y := PanAxis(c.y, dy, c.h, imageH))
  }

  /** The clip after resize as written: the size follows the view, the position is kept. */
  function Resized(c: Clip, viewW: int, viewH: int, imageW: int, imageH: int): (r: Clip)
    ensures r.x == c.x && r.y == c.y
    ensures r.w <= imageW && r.h <= imageH
    ensures r.w <= viewW && r.h <= viewH
    ensures (r.w == viewW || r.w == imageW) && (r.h == viewH || r.h == imageH)
  {
    c.(w := Min(viewW, imageW), h := Min(viewH, imageH))
  }

  /**
   * A clip inside the image stops being inside it when the view grows while
   * the clip is panned away from the top: the size grows but the position
   * stays where it was.
   */
  lemma ResizeCanLeaveImage()
    ensures var before := Clip(0, 500, 500, 500);
            InImage(before, 1000, 1000) && !InImage(Resized(before, 800, 800, 1000, 1000), 1000, 1000)
  {
  }

  /** resize followed by the clamp pan applies, so the clip stays inside the image. */
  function ResizedWithin(c: Clip, viewW: int, viewH: int, imageW: int, imageH: int): (r: Clip)
    requires 0 <= viewW && 0 <= viewH && 0 <= imageW && 0 <= imageH
    ensures r.w == Resized(c, viewW, viewH, imageW, imageH).w && r.h == Resized(c, viewW, viewH, imageW, imageH).h
    ensures InImage(r, imageW, imageH)
    ensures InImage(Resized(c, viewW, viewH, imageW, imageH), imageW, imageH) ==> r == Resized(c, viewW, viewH, imageW, imageH)
  {
    Panned(Resized(c, viewW, viewH, imageW, imageH), 0, 0, imageW, imageH)
  }

  /**
   * The crop clamp of the RESCALE_LR click on [x, y, width, height]: a
   * negative corner is moved to 0, and a width or height reaching past the
   * image is cut at its edge.
   */
  function ClampedCrop(c: seq<int>, imageW: int, imageH: int): (r: seq<int>)
    requires |c| == 4
    ensures |r| == 4
    ensures r[0] >= 0 && r[1] >= 0
    ensures r[0] + r[2] <= imageW && r[1] + r[3] <= imageH
    ensures r[2] <= c[2] && r[3] <= c[3]
    ensures c[0] >= 0 ==> r[0] == c[0]
    ensures c[0] < 0 ==> r[0] == 0
    ensures c[1] >= 0 ==> r[1] == c[1]
    ensures c[1] < 0 ==> r[1] == 0
    ensures c[2] <= imageW - r[0] ==> r[2] == c[2]
    ensures c[2] > imageW - r[0] ==> r[2] == imageW - r[0]
    ensures c[3] <= imageH - r[1] ==> r[3] == c[3]
    ensures c[3] > imageH - r[1] ==> r[3] == imageH - r[1]
  {
    var x := if c[0] < 0 then 0 else c[0];
    var y := if c[1] < 0 then 0 else c[1];
    var w := if c[2] > imageW - x then imageW - x else c[2];
    var h := if c[3] > imageH - y then imageH - y else c[3];
    [x, y, w, h]
  }

  /** A crop rectangle that is already inside the image is left alone. */
  lemma ClampKeepsInsideCrop(c: seq<int>, imageW: int, imageH: int)
    requires |c| == 4 && c[0] >= 0 && c[1] >= 0 && c[0] + c[2] <= imageW && c[1] + c[3] <= imageH
    ensures ClampedCrop(c, imageW, imageH) == c
  {
    var r := ClampedCrop(c, imageW, imageH);
    assert r[0] == c[0] && r[1] == c[1] && r[2] == c[2] && r[3] == c[3];
  }

  /**
   * BufferedImage.getSubimage(x, y, w, h) on an image of the given size
   * returns instead of throwing: the width and height are positive and the
   * rectangle lies inside the image.
   */
  function CropAccepted(r: seq<int>, imageW: int, imageH: int): (ok: bool)
    requires |r| == 4
    ensures ok ==> r[2] > 0 && r[3] > 0 && InImage(Clip(r[0], r[1], r[2], r[3]), imageW, imageH)
    ensures !ok ==> r[2] <= 0 || r[3] <= 0 || !InImage(Clip(r[0], r[1], r[2], r[3]), imageW, imageH)
  {
    r[2] > 0 && r[3] > 0 && 0 <= r[0] && r[0] + r[2] <= imageW && 0 <= r[1] && r[1] + r[3] <= imageH
  }

  /** After the clamp only the size can make getSubimage throw: it accepts the crop exactly when its width and height are positive. */
  lemma ClampedCropAccepted(c: seq<int>, imageW: int, imageH: int)
    requires |c| == 4
    ensures var r := ClampedCrop(c, imageW, imageH);
            CropAccepted(r, imageW, imageH) <==> r[2] > 0 && r[3] > 0
  {
  }

  /** How a click changes the mode (mouseClicked). */
  function AfterClick(m: Mode): (r: Mode)
    ensures m == Add || m == Move || m == RescaleLR ==> r == Idle
    ensures m == RescaleUL ==> r == RescaleLR
    ensures m == Idle || m == AddConnection || m == RemoveConnection ==> r == m
  {
    match m
    case Add => Idle
    case Move => Idle
    case RescaleUL => RescaleLR
    case RescaleLR => Idle
    case _ => m
  }

  /** The crop takes two clicks: from RESCALE_UL the second click returns to NONE. */
  lemma CropTakesTwoClicks(m: Mode)
    requires m != Idle && m != AddConnection && m != RemoveConnection
    ensures AfterClick(AfterClick(m)) == Idle
    ensures AfterClick(m) == Idle <==> m != RescaleUL
  {
  }

  class MapImage {
    var hasImage: bool
    var imageW: int
    var imageH: int
    var clipX: int
    var clipY: int
    var clipW: int
    var clipH: int
    const session: Session

    function ClipRect(): Clip
      reads this
    {
      Clip(clipX, clipY, clipW, clipH)
    }

    ghost predicate Valid()
      reads this
    {
      hasImage ==> imageW > 0 && imageH > 0
    }

    constructor (s: Session)
      ensures session == s && !hasImage && ClipRect() == Clip(0, 0, 0, 0)
      ensures Valid()
    {
      session := s;
      hasImage := false;
      imageW, imageH := 0, 0;
      clipX, clipY, clipW, clipH := 0, 0, 0, 0;
    }

    /** pan(x, y) on the clip. */
    method Pan(x: int, y: int)
      requires hasImage
      modifies this`clipX, this`clipY
      ensures ClipRect() == Panned(old(ClipRect()), x, y, imageW, imageH)
    {
      clipX := clipX + x;
      clipY := clipY + y;
      if clipX < 0 {
        clipX := 0;
      } else if clipX + clipW > imageW {
        clipX := imageW - clipW;
      }
      if clipY < 0 {
        clipY := 0;
      } else if clipY + clipH > imageH {
        clipY := imageH - clipH;
      }
    }

    /** resize() with the component's current size. */
    method Resize(viewW: nat, viewH: nat)
      requires hasImage
      modifies this`clipW, this`clipH
      ensures ClipRect() == Resized(old(ClipRect()), viewW, viewH, imageW, imageH)
    {
      clipW := if viewW < imageW then viewW else imageW;
      clipH := if viewH < imageH then viewH else imageH;
    }

    /** resize() followed by a clamp of the position, so the clip never leaves the image. */
    method ResizeWithinImage(viewW: nat, viewH: nat)
      requires Valid() && hasImage
      modifies this`clipX, this`clipY, this`clipW, this`clipH
      ensures ClipRect() == ResizedWithin(old(ClipRect()), viewW, viewH, imageW, imageH)
      ensures InImage(ClipRect(), imageW, imageH)
    {
      Resize(viewW, viewH);
      Pan(0, 0);
    }

    /** setImage(bi) for an image of the given size: the clip is reset to the corner and resized to the view. */
    method SetImage(w: int, h: int, viewW: nat, viewH: nat)
      requires w > 0 && h > 0
      modifies this`hasImage, this`imageW, this`imageH, this`clipX, this`clipY, this`clipW, this`clipH
      ensures Valid() && hasImage && imageW == w && imageH == h
      ensures ClipRect() == Clip(0, 0, Min(viewW, w), Min(viewH, h))
      ensures InImage(ClipRect(), imageW, imageH)
    {
      hasImage, imageW, imageH := true, w, h;
      clipX := 0;
      clipY := 0;
      ResizeWithinImage(viewW, viewH);
    }

    /** The clamp applied to the crop rectangle in place. */
    method ClampCrop(clip: array<int>)
      requires clip.Length == 4
      modifies clip
      ensures clip[..] == ClampedCrop(old(clip[..]), imageW, imageH)
    {
      if clip[0] < 0 {
        clip[0] := 0;
      }
      if clip[1] < 0 {
        clip[1] := 0;
      }
      if clip[2] > imageW - clip[0] {
        clip[2] := imageW - clip[0];
      }
      if clip[3] > imageH - clip[1] {
        clip[3] := imageH - clip[1];
      }
    }

    /**
     * mouseClicked: (ulX, ulY) is where node -1's icon is, (lrX, lrY) where
     * node -2's icon is, and the view size is the component's.
     */
    method MouseClicked(ulX: int, ulY: int, lrX: int, lrY: int, viewW: nat, viewH: nat)
      requires Valid()
      requires session.mode == RescaleLR ==> hasImage
      modifies this, session
      ensures Valid() && hasImage == old(hasImage)
      ensures session.mode == AfterClick(old(session.mode)) && session.log == old(session.log)
      ensures old(session.mode) == RescaleUL ==> session.newMapX == ulX && session.newMapY == ulY
      ensures old(session.mode) != RescaleUL ==> session.newMapX == old(session.newMapX) && session.newMapY == old(session.newMapY)
      ensures old(session.mode) != RescaleLR ==>
        session.newMapWidth == old(session.newMapWidth) && session.newMapHeight == old(session.newMapHeight)
      ensures old(session.mode) != RescaleLR ==>
        imageW == old(imageW) && imageH == old(imageH) && ClipRect() == old(ClipRect())
      ensures old(session.mode) == RescaleLR ==>
        && session.newMapWidth == lrX - old(session.newMapX)
        && session.newMapHeight == lrY - old(session.newMapY)
        && var crop := ClampedCrop([old(session.newMapX), old(session.newMapY), lrX - old(session.newMapX), lrY - old(session.newMapY)], old(imageW), old(imageH));
           if CropAccepted(crop, old(imageW), old(imageH)) then
             imageW == crop[2] && imageH == crop[3] && ClipRect() == Clip(0, 0, Min(viewW, crop[2]), Min(viewH, crop[3]))
           else
             imageW == old(imageW) && imageH == old(imageH) && ClipRect() == old(ClipRect())
    {
      match session.mode
      case Add =>
        session.mode := Idle;
      case Move =>
        session.mode := Idle;
      case RescaleUL =>
        session.mode := RescaleLR;
        session.newMapX := ulX;
        session.newMapY := ulY;
      case RescaleLR =>
        session.mode := Idle;
        session.newMapWidth := lrX - session.newMapX;
        session.newMapHeight := lrY - session.newMapY;
        var clip := new int[4];
        clip[0], clip[1], clip[2], clip[3] := session.newMapX, session.newMapY, session.newMapWidth, session.newMapHeight;
        assert clip[..] == [session.newMapX, session.newMapY, session.newMapWidth, session.newMapHeight];
        ClampCrop(clip);
        if clip[2] > 0 && clip[3] > 0 {
          SetImage(clip[2], clip[3], viewW, viewH);
        }
      case _ =>
    }
  }
}
