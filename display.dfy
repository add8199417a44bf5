/** The panel driver script: which driver module the panel version selects,
    when the panel is fully cleared, and how an RGB image is split into the
    black and the red 1-bit channels of a three-colour panel. */
module Display {
  import opened Options

  const RedThreshold := 150
  const BlackThreshold := 150

  /** The version assumed when WAVESHARE_EPD75_VERSION is not set. */
  const DefaultVersion := "2B"

  /** The three driver modules of the 7.5 inch panel family. */
  datatype Driver = Epd7in5 | Epd7in5bV2 | Epd7in5V2

  /** `os.getenv("WAVESHARE_EPD75_VERSION", "2B")`, the environment lookup given
      as its result. */
  function PanelVersion(env: Option<string>): (version: string)
    ensures env.None? ==> version == DefaultVersion
    ensures env.Some? ==> version == env.value
  {
    match env
    case None => DefaultVersion
    case Some(v) => v
  }

  /** The driver imported for a version: "1" and "2B" have their own, every
      other string falls through to the V2 driver. */
  function SelectDriver(version: string): (d: Driver)
    ensures d == Epd7in5 <==> version == "1"
    ensures d == Epd7in5bV2 <==> version == "2B"
    ensures d == Epd7in5V2 <==> version != "1" && version != "2B"
  {
    if version == "1" then Epd7in5
    else if version == "2B" then Epd7in5bV2
    else Epd7in5V2
  }

  /** Whether the image goes through the black/red split before display. */
  predicate SplitsChannels(version: string)
  {
    version == "2B"
  }

  /** The split runs exactly when the red-capable driver is in use. */
  lemma SplitOnlyForRedPanel(env: Option<string>)
    ensures SplitsChannels(PanelVersion(env)) <==> SelectDriver(PanelVersion(env)) == Epd7in5bV2
    ensures env.None? ==> SplitsChannels(PanelVersion(env)) && SelectDriver(PanelVersion(env)) == Epd7in5bV2
  {
  }

  /** The full refresh at two in the morning. */
  predicate FullClear(hour: int, minute: int)
  {
    minute == 0 && hour == 2
  }

  /** Over one day counted in minutes, exactly minute 120 (02:00) clears. */
  lemma ClearOncePerDay(t: int)
    requires 0 <= t < 24 * 60
    ensures FullClear(t / 60, t % 60) <==> t == 120
  {
  }

  /** One 8-bit colour component. */
  type Byte = x: int | 0 <= x < 256

  /** A pixel of the source image in RGB mode. */
  datatype Rgb = Rgb(r: Byte, g: Byte, b: Byte)

  /** Which channel, if any, a pixel is drawn in. */
  datatype Ink = RedInk | BlackInk | NoInk

  /** The threshold rules, tried in order: red-dominant, then dark, then white. */
  function Classify(p: Rgb): (ink: Ink)
    ensures ink == RedInk <==> p.r > p.g + RedThreshold && p.r > p.b + RedThreshold
    ensures ink == BlackInk <==> !(p.r > p.g + RedThreshold && p.r > p.b + RedThreshold)
                                 && p.r <= BlackThreshold && p.g <= BlackThreshold && p.b <= BlackThreshold
  {
    if p.r > p.g + RedThreshold && p.r > p.b + RedThreshold then RedInk
    else if p.r <= BlackThreshold && p.g <= BlackThreshold && p.b <= BlackThreshold then BlackInk
    else NoInk
  }

  /** The value left in the black channel for a pixel (0 is ink, 255 paper). */
  function BlackValue(p: Rgb): (v: int)
    ensures v == 0 || v == 255
    ensures v == 0 <==> Classify(p) == BlackInk
  {
    if Classify(p) == BlackInk then 0 else 255
  }

  /** The value left in the red channel for a pixel. */
  function RedValue(p: Rgb): (v: int)
    ensures v == 0 || v == 255
    ensures v == 0 <==> Classify(p) == RedInk
  {
    if Classify(p) == RedInk then 0 else 255
  }

  /** No pixel is inked in both channels, and a dark pixel (which cannot be
      red-dominant) is inked black only. */
  lemma ChannelsExclusive(p: Rgb)
    ensures !(BlackValue(p) == 0 && RedValue(p) == 0)
    ensures p.r <= BlackThreshold && p.g <= BlackThreshold && p.b <= BlackThreshold
            ==> BlackValue(p) == 0 && RedValue(p) == 255
  {
  }

  /** The black and red channels of an image indexed `[x, y]`, width by height:
      both start white and each pixel is written at its own position only. */
  method SplitChannels(image: array2<Rgb>) returns (black: array2<int>, red: array2<int>)
    ensures fresh(black) && fresh(red)
    ensures black.Length0 == image.Length0 && black.Length1 == image.Length1
    ensures red.Length0 == image.Length0 && red.Length1 == image.Length1
    ensures forall x, y :: 0 <= x < image.Length0 && 0 <= y < image.Length1 ==>
              black[x, y] == BlackValue(image[x, y]) && red[x, y] == RedValue(image[x, y])
  {
    var width, height := image.Length0, image.Length1;
    black := new int[width, height]((x, y) => 255);
    red := new int[width, height]((x, y) => 255);
    for x := 0 to width
      invariant forall i, j :: 0 <= i < x && 0 <= j < height ==>
                  black[i, j] == BlackValue(image[i, j]) && red[i, j] == RedValue(image[i, j])
      invariant forall i, j :: x <= i < width && 0 <= j < height ==> black[i, j] == 255 && red[i, j] == 255
    {
      for y := 0 to height
        invariant forall i, j :: 0 <= i < x && 0 <= j < height ==>
                    black[i, j] == BlackValue(image[i, j]) && red[i, j] == RedValue(image[i, j])
        invariant forall j :: 0 <= j < y ==> black[x, j] == BlackValue(image[x, j]) && red[x, j] == RedValue(image[x, j])
        invariant forall i, j :: x <= i < width && 0 <= j < height && (i > x || j >= y) ==>
                    black[i, j] == 255 && red[i, j] == 255
      {
        var p := image[x, y];
        if p.r > p.g + RedThreshold && p.r > p.b + RedThreshold {
          red[x, y] := 0;
        } else if p.r <= BlackThreshold && p.g <= BlackThreshold && p.b <= BlackThreshold {
          black[x, y] := 0;
        } else {
          black[x, y] := 255;
          red[x, y] := 255;
        }
      }
    }
  }
}
