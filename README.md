# Custom TSV Study — a Dafny model

This project models the runtime part of the Sierra Chart study
`scsf_CustomTSVStudy` (Time Segmented Volume). Each time the host calls the
study it looks at the newest bar `i = ArraySize - 1`:

- with fewer than two bars it returns and writes nothing;
- otherwise it stores `TSV[i] = (Close[i] - Close[i-1]) * Volume[i]`;
- it tags bar `i` with the subgraph's primary colour when `TSV[i] >= 0` and
  with the secondary colour otherwise (zero counts as positive);
- it then asks the host's simple moving average to smooth the TSV series
  with the window length taken from the "MA Length" input, which the host
  bounds to `[1, INT_MAX]` with default 6.

Only slot `i` of the TSV values and of their colours is written. Because
automatic looping is switched off, earlier bars get their value only from
the calls made while they were the newest bar; `TsvStreaming` states what
one call per arriving bar yields.

Files:

- `tsv_study.dfy` (module `TsvStudy`): the colour tag, the per-bar TSV
  value, the subgraph update as a function on values (`Update`), and the
  study itself as a method on the host's arrays (`CustomTsvStudy`) proved
  against `Update`. The moving-average call is returned as a
  `MovAvgCall` record, which holds the TSV series handed over and the
  window length.
- `tsv_streaming.dfy` (module `TsvStreaming`): the host adding bars one at
  a time and calling the study after each, with the proof that this fills
  every slot from index 1 on with its bar's TSV and colour.

## Model

| member | source | states |
|---|---|---|
| `TsvStudy.TsvValue` | time-segmented-volume-indicator.cpp:41-42 | the close change of bar `i` times the volume of bar `i`; the value is zero exactly when the bar has zero volume or its close equals the previous close |
| `TsvStudy.ColorOf` | time-segmented-volume-indicator.cpp:45 | the tag is Primary exactly when the TSV value is `>= 0` (zero is positive) and Secondary exactly when it is `< 0` |
| `TsvStudy.Update` | time-segmented-volume-indicator.cpp:34-45 | with fewer than two bars the subgraph is unchanged; otherwise the newest slot holds `(close[i]-close[i-1])*volume[i]`, its colour is the tag recomputed from that stored value, and every earlier slot of both arrays keeps its value |
| `TsvStudy.CustomTsvStudy` | time-segmented-volume-indicator.cpp:33-48 | the arrays after the call are exactly `Update` of the arrays before; early return writes nothing and makes no moving-average call; otherwise the written value, the sign tag and the untouched earlier slots; the moving average is called exactly when there are at least two bars, on the series as it is after the write, with the input's length, which is at least 1 |
| `TsvStudy.ColorFollowsCloseDirection` | time-segmented-volume-indicator.cpp:41-45 | for a bar with positive volume, the tag is Primary exactly when its close is not below the previous close |
| `TsvStudy.QuietBarIsPrimary` | time-segmented-volume-indicator.cpp:41-45 | a bar with zero volume or an unchanged close has TSV 0 and is tagged Primary |
| `TsvStudy.UpdateIdempotent` | time-segmented-volume-indicator.cpp:34-45 | calling the study again on the same bars changes nothing further |
| `TsvStreaming.Streamed` | time-segmented-volume-indicator.cpp:34-45 | replaying one call per arriving bar leaves a subgraph with one value and one colour per bar |
| `TsvStreaming.StreamedMatchesHistory` | time-segmented-volume-indicator.cpp:34-45 | after one call per arriving bar, every slot `j >= 1` holds `(close[j]-close[j-1])*volume[j]` and the tag of that value, and slot 0 keeps what the host put there |
| `TsvStreaming.FourBarExample` | time-segmented-volume-indicator.cpp:41-45 | closes 100, 102, 101, 105 with volumes 10, 20, 15, 30 give TSV 40, -15, 120 for bars 1 to 3, with bar 2 tagged Secondary |

## Left out

- Single-precision `float` arithmetic: close changes, volumes and TSV values are `real`, so rounding in the subtraction and the product is not modelled.
- The body of `sc.SimpleMovAvg`: it is a host library routine whose code is not part of this model. The study's call is recorded as a `MovAvgCall` value (series and length), and the SMA subgraph it fills is not modelled.
- The `sc.SetDefaults` branch (names, draw styles, RGB colours, `AutoLoop = 0`): host registration with no computation. Its input bounds appear as the type `MaLength` and its default as the constant `DEFAULT_MA_LENGTH`, the type's witness, and its two subgraph colours appear as `BarColor`.
- `SCDLLName` and `SCSFExport`: plugin and DLL glue.
- How and when the host calls the study (new bars, tick updates, full recalculation) is not part of the source. `TsvStreaming` covers only the pattern of one call per arriving bar. A single call on a longer history writes only the newest bar, as `Update` states.
- A windowed-sum TSV variant with a rolling accumulator, and moving-average eligibility rules: the source has neither, so neither is modelled.
