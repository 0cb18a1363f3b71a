/** The plant analysis run on every captured frame (`process_image`): three
    colour searches, the presence flags, the summed areas, the health ratio,
    and the bounding boxes drawn onto the frame for the live view. The blob
    detector itself belongs to the camera firmware; what it reports for a frame
    is an input here. */
module PlantAnalyzer {

  /** Area floors handed to the detector with each colour search (`area_threshold`). */
  const GreenMinArea: nat := 500
  const YellowMinArea: nat := 300
  const RedMinArea: nat := 300

  datatype Rect = Rect(x: int, y: int, w: int, h: int)

  /** A detected region: its bounding rectangle and the area the detector reports for it. */
  datatype Blob = Blob(rect: Rect, area: nat)

  /** One captured frame as the analysis sees it: the blobs the detector
      returns for the green, yellow and red thresholds, in the detector's
      order, and the frame's raw pixel buffer. */
  datatype Scene = Scene(green: seq<Blob>, yellow: seq<Blob>, red: seq<Blob>, pixels: seq<int>)

  /** The detector only returns blobs at least as large as the area floor it was given. */
  predicate MeetsFloor(blobs: seq<Blob>, minArea: nat)
  {
    forall i :: 0 <= i < |blobs| ==> blobs[i].area >= minArea
  }

  predicate DetectorOutput(s: Scene)
  {
    MeetsFloor(s.green, GreenMinArea) && MeetsFloor(s.yellow, YellowMinArea) && MeetsFloor(s.red, RedMinArea)
  }

  datatype Rgb = Rgb(r: int, g: int, b: int)

  const GreenMark: Rgb := Rgb(0, 255, 0)
  const YellowMark: Rgb := Rgb(255, 255, 0)
  const RedMark: Rgb := Rgb(255, 0, 0)

  /** A rectangle outline drawn onto the frame. */
  datatype Draw = Draw(rect: Rect, color: Rgb)

  /** The result of analysing one frame. */
  datatype Analysis = Analysis(plantDetected: bool, healthRatio: real, fruitDetected: bool,
                               greenArea: nat, yellowArea: nat)

  /** Sum of the areas of `blobs`; no blob's area exceeds it. */
  function SumAreas(blobs: seq<Blob>): (total: nat)
    ensures |blobs| == 0 ==> total == 0
    ensures forall i :: 0 <= i < |blobs| ==> blobs[i].area <= total
  {
    if |blobs| == 0 then 0 else blobs[0].area + SumAreas(blobs[1..])
  }

  /** Summing is additive over concatenation, so the order blobs arrive in does not matter to a split. */
  lemma {:induction false} SumAreasAppend(a: seq<Blob>, b: seq<Blob>)
    ensures SumAreas(a + b) == SumAreas(a) + SumAreas(b)
    decreases |a|
  {
    if |a| == 0 {
      assert a + b == b;
    } else {
      SumAreasAppend(a[1..], b);
      assert (a + b)[1..] == a[1..] + b;
    }
  }

  /** Blobs that all meet an area floor sum to at least that floor per blob. */
  lemma {:induction false} SumAreasAtLeast(blobs: seq<Blob>, minArea: nat)
    requires MeetsFloor(blobs, minArea)
    ensures SumAreas(blobs) >= |blobs| * minArea
    decreases |blobs|
  {
    if |blobs| > 0 {
      assert MeetsFloor(blobs[1..], minArea) by {
        forall i | 0 <= i < |blobs[1..]| ensures blobs[1..][i].area >= minArea {
          assert blobs[1..][i] == blobs[i + 1];
        }
      }
      SumAreasAtLeast(blobs[1..], minArea);
    }
  }

  /** Percentage of the plant-coloured area that is green: `100 * green / (green + yellow)`,
      and 0 when nothing plant-coloured was seen. */
  function HealthRatio(green: nat, yellow: nat): (ratio: real)
    ensures 0.0 <= ratio <= 100.0
    ensures green + yellow == 0 ==> ratio == 0.0
    ensures green + yellow > 0 ==> ratio * (green + yellow) as real == 100.0 * green as real
  {
    var total := green + yellow;
    if total > 0 then
      var fraction := green as real / total as real;
      assert fraction * total as real == green as real;
      assert fraction <= 1.0;
      fraction * 100.0
    else 0.0
  }

  /** The values `process_image` returns for a frame. */
  function Analyze(s: Scene): (r: Analysis)
    ensures r.plantDetected <==> |s.green| > 0
    ensures r.fruitDetected <==> |s.red| > 0
    ensures r.greenArea == SumAreas(s.green) && r.yellowArea == SumAreas(s.yellow)
    ensures 0.0 <= r.healthRatio <= 100.0
    ensures r.greenArea + r.yellowArea == 0 ==> r.healthRatio == 0.0
    ensures r.greenArea + r.yellowArea > 0 ==>
              r.healthRatio * (r.greenArea + r.yellowArea) as real == 100.0 * r.greenArea as real
  {
    var plant := |s.green| > 0;
    var greenArea := if plant then SumAreas(s.green) else 0;
    var yellowArea := if |s.yellow| > 0 then SumAreas(s.yellow) else 0;
    Analysis(plant, HealthRatio(greenArea, yellowArea), |s.red| > 0, greenArea, yellowArea)
  }

  /** The rectangles `process_image` draws: the first green, the first yellow and
      the first red blob, each in its own colour, each only if that class was seen. */
  function Draws(s: Scene): (ds: seq<Draw>)
    ensures |ds| <= 3
    ensures forall i, j :: 0 <= i < j < |ds| ==> ds[i].color != ds[j].color
    ensures forall i :: 0 <= i < |ds| ==> ds[i].color in {GreenMark, YellowMark, RedMark}
    ensures forall i :: 0 <= i < |ds| && ds[i].color == GreenMark ==> |s.green| > 0 && ds[i].rect == s.green[0].rect
    ensures forall i :: 0 <= i < |ds| && ds[i].color == YellowMark ==> |s.yellow| > 0 && ds[i].rect == s.yellow[0].rect
    ensures forall i :: 0 <= i < |ds| && ds[i].color == RedMark ==> |s.red| > 0 && ds[i].rect == s.red[0].rect
    ensures |s.green| > 0 <==> exists i :: 0 <= i < |ds| && ds[i].color == GreenMark
    ensures |s.yellow| > 0 <==> exists i :: 0 <= i < |ds| && ds[i].color == YellowMark
    ensures |s.red| > 0 <==> exists i :: 0 <= i < |ds| && ds[i].color == RedMark
  {
    var g := if |s.green| > 0 then [Draw(s.green[0].rect, GreenMark)] else [];
    var y := if |s.yellow| > 0 then [Draw(s.yellow[0].rect, YellowMark)] else [];
    var r := if |s.red| > 0 then [Draw(s.red[0].rect, RedMark)] else [];
    var ds := g + y + r;
    assert |s.green| > 0 ==> ds[0].color == GreenMark;
    assert |s.yellow| > 0 ==> ds[|g|].color == YellowMark;
    assert |s.red| > 0 ==> ds[|g| + |y|].color == RedMark;
    ds
  }

  /** Nothing detected: no plant, no fruit, no area and a ratio of 0. */
  lemma EmptyScene(s: Scene)
    requires s.green == [] && s.yellow == [] && s.red == []
    ensures Analyze(s) == Analysis(false, 0.0, false, 0, 0)
    ensures Draws(s) == []
  {
  }

  /** Red blobs never reach the areas or the ratio; they only set the fruit flag. */
  lemma RedNeverCounts(s: Scene, red: seq<Blob>)
    ensures var r, r' := Analyze(s), Analyze(s.(red := red));
            r'.plantDetected == r.plantDetected && r'.greenArea == r.greenArea
            && r'.yellowArea == r.yellowArea && r'.healthRatio == r.healthRatio
  {
  }

  /** A detected plant with no yellow at all is 100% healthy. */
  lemma AllGreenIsHealthy(s: Scene)
    requires DetectorOutput(s)
    requires |s.green| > 0 && s.yellow == []
    ensures Analyze(s).healthRatio == 100.0
  {
    SumAreasAtLeast(s.green, GreenMinArea);
    var a := Analyze(s);
    var g := a.greenArea as real;
    var t := (a.greenArea + a.yellowArea) as real;
    assert a.yellowArea == 0 && a.greenArea > 0;
    assert t == g && t > 0.0;
    Pin(a.healthRatio, g, t, 100.0);
  }

  /** One 600-pixel green blob and nothing else: a plant, fully healthy, no fruit,
      outlined in green. */
  lemma SingleGreenBlob(rect: Rect, pixels: seq<int>)
    ensures var s := Scene([Blob(rect, 600)], [], [], pixels);
            Analyze(s) == Analysis(true, 100.0, false, 600, 0)
            && Draws(s) == [Draw(rect, GreenMark)]
  {
    var s := Scene([Blob(rect, 600)], [], [], pixels);
    assert DetectorOutput(s);
    AllGreenIsHealthy(s);
    assert SumAreas(s.green) == 600 by {
      assert s.green == [] + [Blob(rect, 600)];
      SumAreasAppend([], [Blob(rect, 600)]);
    }
  }

  /** Yellow blobs with no green at all give a ratio of 0. */
  lemma AllYellowIsUnhealthy(s: Scene)
    requires s.green == []
    ensures Analyze(s).healthRatio == 0.0
  {
  }

  /** Equal green and yellow areas give a ratio of exactly 50. */
  lemma EqualAreasHalfHealthy(s: Scene)
    requires SumAreas(s.green) == SumAreas(s.yellow) > 0
    ensures Analyze(s).healthRatio == 50.0
  {
    var a := Analyze(s);
    var g := a.greenArea as real;
    var t := (a.greenArea + a.yellowArea) as real;
    assert t == 2.0 * g && t > 0.0;
    Pin(a.healthRatio, g, t, 50.0);
  }

  /** Another green blob never lowers the ratio. */
  lemma MoreGreenNotLessHealthy(s: Scene, b: Blob)
    ensures Analyze(s.(green := s.green + [b])).healthRatio >= Analyze(s).healthRatio
  {
    SumAreasAppend(s.green, [b]);
    assert SumAreas([b]) == b.area;
    RatioMonotone(SumAreas(s.green), SumAreas(s.yellow), b.area);
  }

  /** Another yellow blob never raises the ratio. */
  lemma MoreYellowNotMoreHealthy(s: Scene, b: Blob)
    ensures Analyze(s.(yellow := s.yellow + [b])).healthRatio <= Analyze(s).healthRatio
  {
    SumAreasAppend(s.yellow, [b]);
    assert SumAreas([b]) == b.area;
    RatioAntitone(SumAreas(s.green), SumAreas(s.yellow), b.area);
  }

  lemma Cancel(r: real, t: real, c: real)
    requires t > 0.0 && r * t == c * t
    ensures r == c
  {
    assert (r - c) * t == 0.0;
  }

  /** A ratio with `r * t == 100 * g` is pinned to `c` once `100 * g == c * t`. */
  lemma Pin(r: real, g: real, t: real, c: real)
    requires t > 0.0 && r * t == 100.0 * g && 100.0 * g == c * t
    ensures r == c
  {
    Cancel(r, t, c);
  }

  /** Comparing two quotients `p / t` and `p' / t'` by cross-multiplying. */
  lemma CrossMultiply(r: real, t: real, p: real, r': real, t': real, p': real)
    requires t > 0.0 && t' > 0.0 && r * t == p && r' * t' == p'
    requires p * t' <= p' * t
    ensures r <= r'
  {
    assert r * t * t' == p * t';
    assert r' * t' * t == p' * t;
    assert (r - r') * (t * t') <= 0.0;
    assert t * t' > 0.0;
  }

  lemma RatioMonotone(g: nat, y: nat, a: nat)
    ensures HealthRatio(g + a, y) >= HealthRatio(g, y)
  {
    if g + y > 0 {
      var t, t' := (g + y) as real, (g + a + y) as real;
      assert (g + a) * (g + y) == g * (g + a + y) + a * y;
      assert (100 * g * (g + a + y)) as real <= (100 * (g + a) * (g + y)) as real;
      assert 100.0 * g as real * t' == (100 * g * (g + a + y)) as real;
      assert 100.0 * (g + a) as real * t == (100 * (g + a) * (g + y)) as real;
      CrossMultiply(HealthRatio(g, y), t, 100.0 * g as real, HealthRatio(g + a, y), t', 100.0 * (g + a) as real);
    }
  }

  lemma RatioAntitone(g: nat, y: nat, a: nat)
    ensures HealthRatio(g, y + a) <= HealthRatio(g, y)
  {
    if g + y > 0 {
      var t, t' := (g + y + a) as real, (g + y) as real;
      assert g * (g + y + a) == g * (g + y) + g * a;
      assert (100 * g * (g + y)) as real <= (100 * g * (g + y + a)) as real;
      assert 100.0 * g as real * t' == (100 * g * (g + y)) as real;
      assert 100.0 * g as real * t == (100 * g * (g + y + a)) as real;
      CrossMultiply(HealthRatio(g, y + a), t, 100.0 * g as real, HealthRatio(g, y), t', 100.0 * g as real);
    }
  }

  /** A captured frame: what the detector finds in it, and what has been drawn onto it so far. */
  class Image {
    const scene: Scene
    var drawn: seq<Draw>

    constructor (scene: Scene)
      ensures this.scene == scene && drawn == []
    {
      this.scene := scene;
      drawn := [];
    }

    /** Outlines `rect` in `color` on the frame. */
    method DrawRectangle(rect: Rect, color: Rgb)
      modifies this
      ensures drawn == old(drawn) + [Draw(rect, color)]
    {
      drawn := drawn + [Draw(rect, color)];
    }
  }

  /** `process_image`: analyses the frame and annotates it in place with the first blob of each class seen. */
  method ProcessImage(img: Image) returns (data: Analysis)
    modifies img
    ensures data == Analyze(img.scene)
    ensures img.drawn == old(img.drawn) + Draws(img.scene)
  {
    var green, yellow, red := img.scene.green, img.scene.yellow, img.scene.red;

    var plantDetected: bool;
    var greenArea: nat;
    if |green| > 0 {
      plantDetected := true;
      greenArea := SumAreas(green);
      img.DrawRectangle(green[0].rect, GreenMark);
    } else {
      plantDetected := false;
      greenArea := 0;
    }

    var yellowArea: nat := if |yellow| > 0 then SumAreas(yellow) else 0;
    if |yellow| > 0 {
      img.DrawRectangle(yellow[0].rect, YellowMark);
    }

    var totalPlantArea := greenArea + yellowArea;
    var healthRatio := if totalPlantArea > 0 then (greenArea as real / totalPlantArea as real) * 100.0 else 0.0;

    var fruitDetected := false;
    if |red| > 0 {
      fruitDetected := true;
      img.DrawRectangle(red[0].rect, RedMark);
    }

    data := Analysis(plantDetected, healthRatio, fruitDetected, greenArea, yellowArea);
  }
}
