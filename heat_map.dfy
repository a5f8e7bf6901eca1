/**
 * Colouring and tooltips of the day-by-hour heat map
 * (src/components/HeatMap.tsx). Cell values are minutes; the ratio is an
 * exact real number here.
 */
module HeatMap {
  import opened Decimal

  /** Math.max(...minutes, 1): the scale never drops below one minute. */
  function MaxMinutes(minutes: seq<real>): (m: real)
    ensures m >= 1.0
    ensures forall i :: 0 <= i < |minutes| ==> minutes[i] <= m
    ensures m == 1.0 || exists i :: 0 <= i < |minutes| && minutes[i] == m
    decreases |minutes|
  {
    if minutes == [] then 1.0
    else
      var rest := MaxMinutes(minutes[..|minutes| - 1]);
      var last := minutes[|minutes| - 1];
      if last > rest then last else rest
  }

  /** getIntensity: 0 for an empty cell, otherwise the share of the largest
      cell, capped at 1. */
  function Intensity(cells: seq<real>, minutes: real): (r: real)
    ensures minutes == 0.0 ==> r == 0.0
    ensures minutes > 0.0 ==> 0.0 < r <= 1.0
    ensures 0.0 <= minutes <= MaxMinutes(cells) ==> r * MaxMinutes(cells) == minutes
  {
    var m := MaxMinutes(cells);
    RatioFacts(minutes, m);
    if minutes == 0.0 then 0.0
    else if minutes / m < 1.0 then minutes / m
    else 1.0
  }

  lemma RatioFacts(x: real, m: real)
    requires m >= 1.0
    ensures x / m * m == x
    ensures x > 0.0 ==> x / m > 0.0
    ensures x <= m ==> x / m <= 1.0
    ensures x / m < 1.0 <==> x < m
  {
  }

  /** The five tiers of getColor, lightest last. */
  datatype Tier = Gray800 | Blue900 | Blue700 | Blue500 | Blue400

  /** The Tailwind class of a tier; every tier but the empty one is a blue. */
  function ClassName(t: Tier): (r: string)
    ensures |r| == 11 && r[..3] == "bg-"
    ensures r[3..8] == "blue-" <==> t != Gray800
  {
    assert "bg-gray-800"[3] == 'g';
    match t
    case Gray800 => "bg-gray-800"
    case Blue900 => "bg-blue-900"
    case Blue700 => "bg-blue-700"
    case Blue500 => "bg-blue-500"
    case Blue400 => "bg-blue-400"
  }

  function Rank(t: Tier): nat {
    match t
    case Gray800 => 0
    case Blue900 => 1
    case Blue700 => 2
    case Blue500 => 3
    case Blue400 => 4
  }

  function ColorOf(intensity: real): (t: Tier)
    ensures t == Gray800 <==> intensity == 0.0
    ensures t == Blue900 <==> intensity != 0.0 && intensity < 0.25
    ensures t == Blue700 <==> 0.25 <= intensity < 0.5
    ensures t == Blue500 <==> 0.5 <= intensity < 0.75
    ensures t == Blue400 <==> intensity >= 0.75
  {
    if intensity == 0.0 then Gray800
    else if intensity < 0.25 then Blue900
    else if intensity < 0.5 then Blue700
    else if intensity < 0.75 then Blue500
    else Blue400
  }

  /** Over intensities in [0, 1] a larger value never gets a lower tier. */
  lemma ColorMonotone(a: real, b: real)
    requires 0.0 <= a <= b
    ensures Rank(ColorOf(a)) <= Rank(ColorOf(b))
  {
  }

  /** A cell with some time is never gray, and the largest cell gets the top tier. */
  lemma CellColors(cells: seq<real>, i: int)
    requires 0 <= i < |cells|
    ensures cells[i] > 0.0 ==> ColorOf(Intensity(cells, cells[i])) != Gray800
    ensures cells[i] == MaxMinutes(cells) ==> ColorOf(Intensity(cells, cells[i])) == Blue400
  {
  }

  /** The class each cell is drawn with: never gray once it has time, and
      bg-blue-400 for the largest cell. */
  lemma CellClassNames(cells: seq<real>, i: int)
    requires 0 <= i < |cells|
    ensures cells[i] > 0.0 ==> ClassName(ColorOf(Intensity(cells, cells[i]))) != "bg-gray-800"
    ensures cells[i] == MaxMinutes(cells) ==> ClassName(ColorOf(Intensity(cells, cells[i]))) == "bg-blue-400"
  {
    CellColors(cells, i);
    var t := ColorOf(Intensity(cells, cells[i]));
    if t != Gray800 {
      assert ClassName(t)[3..8] == "blue-";
      assert "bg-gray-800"[3] == 'g';
    }
  }

  /** "Ns" below a minute, otherwise "Mm Ss". */
  function Tooltip(totalSeconds: nat): (r: string)
    ensures totalSeconds < 60 ==> r == NatToString(totalSeconds) + "s"
    ensures totalSeconds >= 60 ==> exists m: nat, s: nat ::
      m >= 1 && s < 60 && 60 * m + s == totalSeconds && r == MinSec(m, s)
  {
    if totalSeconds < 60 then NatToString(totalSeconds) + "s"
    else MinSec(totalSeconds / 60, totalSeconds % 60)
  }

  function MinSec(m: nat, s: nat): string {
    NatToString(m) + "m " + NatToString(s) + "s"
  }
}
