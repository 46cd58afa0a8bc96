/**
  The Custom TSV study: on every call the host makes, it writes the Time
  Segmented Volume of the newest bar into the TSV subgraph, tags that bar
  with the subgraph's primary (positive) or secondary (negative) colour, and
  hands the TSV series to the host's simple moving average.

  Prices and volumes are modelled as `real`; the host's `float` arithmetic
  is not modelled.
 */
module TsvStudy {

  /** The largest value the host accepts for an integer input. */
  const INT_MAX: int := 0x7fff_ffff

  /** The value the moving-average length input starts with. */
  const DEFAULT_MA_LENGTH: int := 6

  /** The moving-average length input: the host bounds it to [1, INT_MAX]. */
  type MaLength = n: int | 1 <= n <= INT_MAX witness DEFAULT_MA_LENGTH

  /** The per-bar colour of the TSV subgraph. */
  datatype BarColor = Primary | Secondary

  datatype Option<T> = None | Some(value: T)

  /** A request to the host's moving average: the TSV series it is given
      and the window length. Its computation is not part of this model. */
  datatype MovAvgCall = MovAvgCall(series: seq<real>, length: MaLength)

  /** The TSV subgraph as values: one TSV value and one colour per bar. */
  datatype Series = Series(tsv: seq<real>, colors: seq<BarColor>)

  /** The colour a bar gets from its TSV value; zero counts as positive. */
  function ColorOf(tsv: real): (c: BarColor)
    ensures c == Primary <==> tsv >= 0.0
    ensures c == Secondary <==> tsv < 0.0
  {
    if tsv >= 0.0 then Primary else Secondary
  }

  /** The close change of bar `i` weighted by the volume of bar `i`; it is
      zero exactly for a bar without volume or without a close change. */
  function TsvValue(close: seq<real>, volume: seq<real>, i: int): (r: real)
    requires 1 <= i < |close| && i < |volume|
    ensures r == 0.0 <==> volume[i] == 0.0 || close[i] == close[i - 1]
  {
    (close[i] - close[i - 1]) * volume[i]
  }

  /** What one call of the study does to the TSV subgraph, when the host has
      `|close|` bars: nothing with fewer than two bars; otherwise the newest
      slot gets its TSV value and the colour of that stored value, and
      every other slot is left as it was. */
  function Update(s: Series, close: seq<real>, volume: seq<real>): (r: Series)
    requires |s.tsv| == |close| && |s.colors| == |close| && |volume| == |close|
    ensures |r.tsv| == |close| && |r.colors| == |close|
    ensures |close| < 2 ==> r == s
    ensures |close| >= 2 ==>
      var i := |close| - 1;
      && r.tsv[i] == TsvValue(close, volume, i)
      && r.colors[i] == ColorOf(r.tsv[i])
      && r.tsv[..i] == s.tsv[..i]
      && r.colors[..i] == s.colors[..i]
  {
    var current := |close| - 1;
    if current < 1 then s
    else
      var v := TsvValue(close, volume, current);
      Series(s.tsv[current := v], s.colors[current := ColorOf(v)])
  }

  /** One call of the study. `close` and `volume` are the host's bar data,
      their common length is the number of bars; `tsv` and `dataColor` are
      the TSV subgraph's values and colours. The moving-average step is
      returned as the call it makes, or None when the study returns early. */
  method CustomTsvStudy(close: array<real>, volume: array<real>, maLength: MaLength,
                        tsv: array<real>, dataColor: array<BarColor>)
    returns (maCall: Option<MovAvgCall>)
    requires volume.Length == close.Length
    requires tsv.Length == close.Length && dataColor.Length == close.Length
    requires tsv != close && tsv != volume
    modifies tsv, dataColor
    ensures Series(tsv[..], dataColor[..])
         == Update(Series(old(tsv[..]), old(dataColor[..])), close[..], volume[..])
    ensures close.Length < 2 ==> tsv[..] == old(tsv[..]) && dataColor[..] == old(dataColor[..])
    ensures close.Length >= 2 ==>
      var i := close.Length - 1;
      && tsv[i] == (close[i] - close[i - 1]) * volume[i]
      && (dataColor[i] == Primary <==> tsv[i] >= 0.0)
      && (forall j :: 0 <= j < i ==> tsv[j] == old(tsv[j]) && dataColor[j] == old(dataColor[j]))
    ensures maCall.Some? <==> close.Length >= 2
    ensures maCall.Some? ==> maCall.value.series == tsv[..] && maCall.value.length == maLength
    ensures maCall.Some? ==> maCall.value.length >= 1
  {
    var currentIndex := close.Length - 1;
    if currentIndex < 1 {
      return None;
    }
    var closeChange := close[currentIndex] - close[currentIndex - 1];
    tsv[currentIndex] := closeChange * volume[currentIndex];
    dataColor[currentIndex] := if tsv[currentIndex] >= 0.0 then Primary else Secondary;
    assert tsv[currentIndex] == TsvValue(close[..], volume[..], currentIndex);
    assert tsv[..] == old(tsv[..])[currentIndex := TsvValue(close[..], volume[..], currentIndex)];
    assert dataColor[..] == old(dataColor[..])[currentIndex := ColorOf(tsv[currentIndex])];
    maCall := Some(MovAvgCall(tsv[..], maLength));
  }

  /** With positive volume, a bar is tagged positive exactly when its close
      did not fall below the previous close. */
  lemma ColorFollowsCloseDirection(close: seq<real>, volume: seq<real>, i: int)
    requires 1 <= i < |close| && i < |volume|
    requires volume[i] > 0.0
    ensures ColorOf(TsvValue(close, volume, i)) == Primary <==> close[i] >= close[i - 1]
  {
  }

  /** A bar without volume, or whose close did not change, has TSV zero and
      is tagged positive. */
  lemma QuietBarIsPrimary(close: seq<real>, volume: seq<real>, i: int)
    requires 1 <= i < |close| && i < |volume|
    requires volume[i] == 0.0 || close[i] == close[i - 1]
    ensures TsvValue(close, volume, i) == 0.0
    ensures ColorOf(TsvValue(close, volume, i)) == Primary
  {
  }

  /** Calling the study twice on the same bars gives the same subgraph as
      calling it once: the newest slot is recomputed from the bar data only. */
  lemma UpdateIdempotent(s: Series, close: seq<real>, volume: seq<real>)
    requires |s.tsv| == |close| && |s.colors| == |close| && |volume| == |close|
    ensures Update(Update(s, close, volume), close, volume) == Update(s, close, volume)
  {
  }
}
