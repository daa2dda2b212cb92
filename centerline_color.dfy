/** Marker colours of the static centerline generator: the channel split of
    a parsed 0xRRGGBB value (`convert_hex_string_to_decimal`) and the
    threshold lookup `get_marker_color` in `validate_centerline`. */
module CenterlineColor {
  import opened Wrappers
  import opened CenterlineTypes

  /** `unsigned int`. */
  newtype Uint32 = x: int | 0 <= x < 0x1_0000_0000

  /** The integer channels the source computes, before scaling. */
  datatype Channels = Channels(r: int, g: int, b: int)

  /** A colour with each channel scaled by 1/255 (`r / 255.0`, ...). */
  datatype Rgb = Rgb(r: real, g: real, b: real)

  const Unit: int := 16 * 16

  /** The source's unsigned arithmetic, step by step. No subtraction wraps:
      `b` never exceeds `v`, nor does `g * unit + b`. */
  function HexChannels(v: Uint32): (c: Channels)
    ensures c.b == v as int % 256
    ensures c.g == v as int / 256 % 256
    ensures c.r == v as int / 65536
  {
    var x := v as int;
    var b := x % Unit;
    ChannelIdentities(x);
    var g := (x - b) / Unit % Unit;
    var r := (x - g * Unit - b) / Unit / Unit;
    Channels(r, g, b)
  }

  /** The steps of the source's arithmetic agree with plain digit
      extraction. */
  lemma ChannelIdentities(x: nat)
    ensures (x - x % 256) / 256 == x / 256
    ensures x - (x / 256 % 256) * 256 - x % 256 >= 0
    ensures (x - (x / 256 % 256) * 256 - x % 256) / 256 / 256 == x / 65536
  {
    var q := x / 256;
    assert x == q * 256 + x % 256;
    assert x - x % 256 == q * 256;
    var h := q / 256;
    assert q == h * 256 + q % 256;
    assert x - (q % 256) * 256 - x % 256 == h * 65536;
    assert h * 65536 / 256 == h * 256;
    DivDiv(x);
  }

  lemma DivDiv(x: nat)
    ensures x / 256 / 256 == x / 65536
  {
    var h := x / 65536;
    var rest := x % 65536;
    assert x == h * 65536 + rest;
    assert x / 256 == h * 256 + rest / 256;
  }

  /** The channels put back together give the value. */
  lemma ChannelsRecombine(v: Uint32)
    ensures var c := HexChannels(v); c.r * 65536 + c.g * 256 + c.b == v as int
  {
    var x := v as int;
    var q := x / 256;
    assert x == q * 256 + x % 256;
    assert q == (q / 256) * 256 + q % 256;
    DivDiv(x);
  }

  /** Each channel of a six-digit value is a byte. */
  lemma ChannelsAreBytes(v: Uint32)
    requires v <= 0xFF_FFFF
    ensures var c := HexChannels(v); 0 <= c.r < 256 && 0 <= c.g < 256 && 0 <= c.b < 256
  {
  }

  /** `convert_hex_string_to_decimal`, from the parsed value on. */
  function ConvertHexToDecimal(v: Uint32): (color: Rgb)
    ensures color.r == (v as int / 65536) as real / 255.0
    ensures color.g == (v as int / 256 % 256) as real / 255.0
    ensures color.b == (v as int % 256) as real / 255.0
  {
    var c := HexChannels(v);
    Rgb(c.r as real / 255.0, c.g as real / 255.0, c.b as real / 255.0)
  }

  /** A six-digit colour has every channel in [0, 1]. */
  lemma ColorInUnitCube(v: Uint32)
    requires v <= 0xFF_FFFF
    ensures var color := ConvertHexToDecimal(v);
      0.0 <= color.r <= 1.0 && 0.0 <= color.g <= 1.0 && 0.0 <= color.b <= 1.0
  {
    ChannelsAreBytes(v);
  }

  /** The first threshold that `dist` lies strictly below. */
  function FirstThresholdAbove(dist: real, thresholds: seq<real>): (r: Option<nat>)
    ensures r.Some? ==> r.value < |thresholds| && dist < thresholds[r.value]
    ensures r.Some? ==> forall j :: 0 <= j < r.value ==> dist >= thresholds[j]
    ensures r.None? <==> forall j :: 0 <= j < |thresholds| ==> dist >= thresholds[j]
  {
    if thresholds == [] then None
    else if dist < thresholds[0] then Some(0)
    else match FirstThresholdAbove(dist, thresholds[1..])
      case None => None
      case Some(k) => Some(k + 1)
  }

  /** The lookup's outcome: the colour paired with the first threshold above
      `dist`, none when there is no such threshold, and `OutOfRange` when the
      colour list is shorter than the threshold list at that index. Colours
      enter as their parsed values. */
  function MarkerColor(dist: real, thresholds: seq<real>, colors: seq<Uint32>): Result<Option<Rgb>, Fault> {
    match FirstThresholdAbove(dist, thresholds)
    case None => Success(None)
    case Some(i) => if i < |colors| then Success(Some(ConvertHexToDecimal(colors[i]))) else Failure(OutOfRange)
  }

  method GetMarkerColor(dist: real, thresholds: seq<real>, colors: seq<Uint32>) returns (r: Result<Option<Rgb>, Fault>)
    ensures r == MarkerColor(dist, thresholds, colors)
  {
    var i := 0;
    while i < |thresholds|
      invariant 0 <= i <= |thresholds|
      invariant forall j :: 0 <= j < i ==> dist >= thresholds[j]
    {
      if dist < thresholds[i] {
        if i >= |colors| {
          return Failure(OutOfRange);
        }
        return Success(Some(ConvertHexToDecimal(colors[i])));
      }
      i := i + 1;
    }
    return Success(None);
  }

  /** With ascending thresholds the lookup picks the band `dist` lies in:
      below band i's bound and at or above band i-1's. */
  lemma AscendingThresholdsPickTheBand(dist: real, thresholds: seq<real>, i: nat)
    requires forall a, b :: 0 <= a < b < |thresholds| ==> thresholds[a] < thresholds[b]
    requires i < |thresholds| && dist < thresholds[i] && (i == 0 || thresholds[i - 1] <= dist)
    ensures FirstThresholdAbove(dist, thresholds) == Some(i)
  {
  }
}
