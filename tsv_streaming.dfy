/**
  The study as the host drives it while bars arrive one at a time: each new
  bar adds one slot to the TSV subgraph (holding whatever value and colour the
  host starts it with) and the study is called once with the grown arrays.
 */
module TsvStreaming {
  import opened TsvStudy

  /** The subgraph after the first `n` bars have arrived one by one, slot
      `k` having been added holding `startTsv[k]` and `startColors[k]`. */
  function Streamed(close: seq<real>, volume: seq<real>,
                    startTsv: seq<real>, startColors: seq<BarColor>, n: nat): (r: Series)
    requires n <= |close| && |volume| == |close|
    requires |startTsv| == |close| && |startColors| == |close|
    ensures |r.tsv| == n && |r.colors| == n
    decreases n
  {
    if n == 0 then Series([], [])
    else
      var before := Streamed(close, volume, startTsv, startColors, n - 1);
      var grown := Series(before.tsv + [startTsv[n - 1]], before.colors + [startColors[n - 1]]);
      Update(grown, close[..n], volume[..n])
  }

  /** Streaming yields the whole history: every slot from index 1 on holds
      the TSV of its bar and the colour of that value, and slot 0, which has
      no previous close, is never written. */
  lemma {:induction false} StreamedMatchesHistory(close: seq<real>, volume: seq<real>,
                                                  startTsv: seq<real>, startColors: seq<BarColor>, n: nat)
    requires n <= |close| && |volume| == |close|
    requires |startTsv| == |close| && |startColors| == |close|
    ensures forall j :: 1 <= j < n ==>
      Streamed(close, volume, startTsv, startColors, n).tsv[j] == TsvValue(close, volume, j)
    ensures forall j :: 1 <= j < n ==>
      Streamed(close, volume, startTsv, startColors, n).colors[j] == ColorOf(TsvValue(close, volume, j))
    ensures n >= 1 ==>
      && Streamed(close, volume, startTsv, startColors, n).tsv[0] == startTsv[0]
      && Streamed(close, volume, startTsv, startColors, n).colors[0] == startColors[0]
  {
    if n > 0 {
      StreamedMatchesHistory(close, volume, startTsv, startColors, n - 1);
      var before := Streamed(close, volume, startTsv, startColors, n - 1);
      var grown := Series(before.tsv + [startTsv[n - 1]], before.colors + [startColors[n - 1]]);
      var after := Streamed(close, volume, startTsv, startColors, n);
      assert after == Update(grown, close[..n], volume[..n]);
      forall j | 0 <= j < n - 1
        ensures after.tsv[j] == before.tsv[j] && after.colors[j] == before.colors[j]
      {
        if n >= 2 {
          assert after.tsv[..n - 1][j] == grown.tsv[..n - 1][j];
          assert after.colors[..n - 1][j] == grown.colors[..n - 1][j];
        }
      }
      if n >= 2 {
        assert TsvValue(close[..n], volume[..n], n - 1) == TsvValue(close, volume, n - 1);
      }
    }
  }

  /** Four bars: TSV 40, -15 and 120 for bars 1 to 3, bar 2 tagged negative. */
  lemma FourBarExample()
    ensures var s := Streamed([100.0, 102.0, 101.0, 105.0], [10.0, 20.0, 15.0, 30.0],
                              [0.0, 0.0, 0.0, 0.0], [Primary, Primary, Primary, Primary], 4);
      s.tsv == [0.0, 40.0, -15.0, 120.0] && s.colors == [Primary, Primary, Secondary, Primary]
  {
  }
}
