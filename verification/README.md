# Warehouse Mapper — a Dafny model of its core

The Warehouse Mapper is a small Streamlit app. It reads an uploaded CSV that
holds latitude in column A and longitude in column B, with or without a header
row. It gives every point a colour from an evenly spaced hue sweep and draws
the points on a map.
This project models the three pieces of logic in `streamlit_app.py` and proves
properties about them:

- **Table normaliser** (`read_latlon_csv`), in module `LatLonCsv`. The parser
  first reads the upload without a header. If that gives at least two columns,
  columns 0 and 1 are used. Otherwise the parser reads it again with a header
  row and takes that parse's first two columns by position. If both parses have
  fewer than two columns, the reader fails. Coordinates are then coerced to
  numbers. Every row whose latitude or longitude is not a number is dropped.
  Only the two coordinate columns are kept, in their original row order.
- **Colour sweep** (`distinct_palette_rgba` with the nested `hsl_to_rgb` and
  `hue2rgb`), in module `Palette`. It produces `max(n, 1)` colours. Entry `i`
  has hue `i / max(n, 1)`, saturation 0.65 and lightness 0.5. Each channel is
  truncated to an integer, and the requested alpha is appended.
- **Initial view**, in module `Viewport`. An empty table opens at centre
  (39.5, -98.35) with zoom 3. Otherwise the centre is the mean latitude and the
  mean longitude. The zoom is 8 for one row and 4 for more than one.

Module `App` joins the colour sweep to the view. The palette becomes the
frame's `fill_rgba` column, and the view is computed from the resulting frame.
This is where the finding below lives. `Wrappers` holds `Option` and `Result`.
`RealArith` holds four facts about products of reals.

How the model represents the source:

- **Parser output.** The CSV parser and pandas' `to_numeric` are treated as an
  oracle. One parse is a `RawTable` with a column count, the column labels and
  rows of already-coerced cells. The labels are the parser's, after it has
  made repeated header texts unique (`latitude,y,latitude` is labelled
  `latitude`, `y`, `latitude.1`). A cell is `Some(x)` for a number and `None`
  for anything that becomes NaN. A short row reads as NaN past its end, which
  is how the parser pads it. The two parses of one upload are independent
  inputs: the model does not relate the header parse to the headerless one
  (see the note on the header fallback below).
- **Arithmetic.** Floating-point arithmetic is modelled with exact `real`
  numbers. Python's `int()` truncates toward zero, and `Truncate` models that
  exactly for both signs. `x % 1.0` is modelled as `x - floor(x)`.
- **NaN.** A NaN view coordinate is `None`. `Series.mean()` skips NaN and
  returns NaN when no number is left (`Viewport.ColumnMean`).
- **Entry shape.** A palette entry is the datatype `Rgba`, so every entry has
  four components by construction.

Notes on the source, where the code does something its own comments do not say:

- The palette has `max(n, 1)` entries, so one colour for `n = 0`, although the
  docstring at streamlit_app.py:46 says `n` colours.
- That docstring also promises `n` distinct colours. The hues are pairwise distinct
  (`Palette.HuesIncrease`). The byte colours are proved distinct for up to 994
  entries (`Palette.PaletteEntriesDistinct`). At 997 entries they are not:
  entries 448 and 449 are both (44, 210, 160) (`Palette.PaletteRepeatsAt997`).
  From 997 on a repeat is unavoidable. By the six closed forms of
  `Palette.SweepBySector`, one channel ramps through the 167 bytes 44..210 in
  each sixth of the turn, so the sweep has at most 6 * 167 - 6 = 996 byte
  colours. This count is an argument, not a lemma. The model proves nothing
  about 995 and 996 entries. Further out, entries 1 and 2 of a 2000-colour
  palette are equal (`Palette.PaletteRepeatsColours`). See "Findings".
- The header parse renames its first two columns to `latitude` and
  `longitude`. If a later column label (after the parser's de-duplication)
  already is one of those names, pandas sees two columns with the same name
  and `to_numeric` then fails. The model has
  this second error case (`ClashingColumnName`), as well as the
  "at least two columns" error.
- The header fallback (lines 24-34) may never succeed. With `header=None`,
  pandas takes the column count from the first line and raises on a later
  line with more fields. So when the headerless parse succeeds with one
  column, every line has at most one field, and the header parse has one
  column too. On that reading of pandas (not executed), the fallback only ever
  reaches the "at least two columns" error, and `ClashingColumnName` cannot
  occur. The model keeps the two parses independent, so it covers the code
  under any parser behaviour, including these branches.

## Model

| member | source | states |
|---|---|---|
| LatLonCsv.ReadLatLon | streamlit_app.py:11-41 | Raises "at least two columns" exactly when both parses have fewer than two columns. Raises the name clash exactly when the header parse is used and a label after the second column is `latitude` or `longitude`. Otherwise the result is the order-preserving selection of the complete rows: of the headerless parse whenever it has two columns, else of the header parse. |
| LatLonCsv.PointOf | streamlit_app.py:33-41 | The output row holds column 0 as latitude and column 1 as longitude, taken by position. |
| LatLonCsv.DropInvalid | streamlit_app.py:38-41 | Never more rows than the input. Exactly as many if and only if no row has a non-numeric coordinate. |
| LatLonCsv.DropInvalidSelects | streamlit_app.py:38-41 | The output is exactly the complete rows in their original order. Every point comes from a complete row, the source rows strictly increase, and no complete row is left out. |
| Palette.Count | streamlit_app.py:69 | `max(n, 1)`: at least 1 and at least `n`, and equal to one of them; so `n` for `n >= 1` and 1 otherwise. |
| Palette.Truncate | streamlit_app.py:66 | `int()` truncates toward zero: for x >= 0 it is the largest integer not above x, and for x < 0 the smallest not below it. |
| Palette.FractionalPart | streamlit_app.py:70 | `x % 1.0` lies in [0, 1) and differs from x by a whole number. |
| Palette.WrapHue | streamlit_app.py:52-53 | The first two lines of `hue2rgb` move t by at most one turn, into [0, 1] for t in [-1, 2]. |
| Palette.Hue2RgbBetween | streamlit_app.py:51-57 | For t in [-1, 2], `hue2rgb(p, q, t)` lies between min(p, q) and max(p, q). |
| Palette.UpperLowerInUnit | streamlit_app.py:61-62 | For s and l in [0, 1]: 0 <= p <= l <= q <= 1. |
| Palette.HslToRgb | streamlit_app.py:58-59 | With s = 0 the colour is grey: all three channels equal `int(l * 255)`. |
| Palette.HslToRgbInByteRange | streamlit_app.py:49-66 | For h in [0, 1) and s, l in [0, 1], every channel lies in [0, 255]. |
| Palette.ThirdsReachBothExtremes | streamlit_app.py:63-65 | At any hue in [0, 1), one channel is at q and one is at p. |
| Palette.SweepChannels | streamlit_app.py:70-73 | With s = 0.65 and l = 0.5, every channel lies in [44, 210]. The largest channel is 210 and the smallest is 44. |
| Palette.HueIsEvenlySpaced | streamlit_app.py:69-70 | For each index the loop visits, the `% 1.0` is a no-op: hue i equals i / max(n, 1) and lies in [0, 1). |
| Palette.HuesIncrease | streamlit_app.py:69-70 | Hues strictly increase with the index, so they are pairwise distinct. Hues i and j are (j - i) / max(n, 1) apart. |
| Palette.DistinctPalette | streamlit_app.py:44-75 | `max(n, 1)` entries, every one with the requested alpha. |
| Palette.PaletteChannels | streamlit_app.py:68-75 | Every palette entry has the requested alpha and channels in [44, 210], with the largest at 210 and the smallest at 44. |
| Palette.RampFacts | streamlit_app.py:54-56 | A ramping channel byte lies in [44, 210], strictly increases over every step of a 994th of a turn, and is 210 or 44 only within 1/2000 of the sector's ends. |
| Palette.SweepBySector | streamlit_app.py:51-66 | Over each sixth of the turn, one channel is 210, one is 44, and the third is the ramp byte, for each of the six sectors. |
| Palette.SweepSeparates | streamlit_app.py:63-66 | Two hues at least a 994th of a turn apart, both ways round the circle, give different byte colours. |
| Palette.HueGaps | streamlit_app.py:69-70 | For n up to 994, two palette hues are at least a 994th of a turn apart, both ways round the circle. |
| Palette.PaletteEntriesDistinct | streamlit_app.py:44-75 | For n up to 994, no two palette entries are equal. |
| Palette.CheckedPalette | streamlit_app.py:44-47 | Corrected palette: fails exactly when n > 994. Otherwise it returns the sweep's own palette `DistinctPalette(n, alpha)`: `max(n, 1)` entries, each with the requested alpha, pairwise different. |
| Palette.PaletteRepeatsAt997 | streamlit_app.py:44-47 | The smallest repeat found: in a palette of 997, entries 448 and 449 are equal. |
| Palette.PaletteRepeatsColours | streamlit_app.py:44-47 | The "n distinct colours" of the docstring fails after truncation: in a palette of 2000, entries 1 and 2 are equal. |
| Viewport.InitialView | streamlit_app.py:132-137 | The default view is chosen if and only if the frame is empty. One row gives zoom 8, more than one gives zoom 4. |
| Viewport.EmptyTableView | streamlit_app.py:136-137 | No points: centre (39.5, -98.35), zoom 3. |
| Viewport.SinglePointView | streamlit_app.py:132-135 | One point: centred on that point, zoom 8. |
| Viewport.ManyPointsView | streamlit_app.py:132-135 | Several points: zoom 4, centred on the mean latitude and the mean longitude. |
| Viewport.CentreInsideBox | streamlit_app.py:133-134 | The mean latitude and mean longitude of a non-empty table lie inside every box that holds all the points. |
| Viewport.NumbersOfPresent | streamlit_app.py:133-134 | A column without NaN keeps every entry as a number, in order, so its mean is the mean of all its entries. |
| Viewport.MeanBounds | streamlit_app.py:133-134 | A mean of values in [lo, hi] lies in [lo, hi]. |
| Viewport.SumBounds | streamlit_app.py:133-134 | A sum of n values in [lo, hi] lies in [n lo, n hi]. |
| App.AssignFill | streamlit_app.py:101-103 | A colour list as long as the frame becomes its column, leaving the coordinates unchanged. An empty frame given a non-empty list grows to the list's length with NaN coordinates. Any other length mismatch fails. |
| App.EmptyTableAsWritten | streamlit_app.py:101-137 | As written, an empty table gives a NaN centre at zoom 8, not the default view. |
| App.CorrectedShowsViewOfTable | streamlit_app.py:132-137 | With one colour per row, the view is the viewport rule applied to the normalised table. The empty table gets the default view. |
| App.AsWrittenAgreesWhenNonEmpty | streamlit_app.py:101-103 | On every non-empty table, the code as written and the corrected code give the same view. |

## Left out

- **Parser.** CSV tokenising and `to_numeric`'s string-to-number rules are not
  modelled. The model takes each parse's column count, header text and coerced
  cells as given.
- **Parser failures.** The `seek(0)` retry and parser exceptions (for example
  a row with more fields than the first line, which makes `read_csv` raise)
  are I/O recovery around the oracle. They are not modelled.
- **Float rounding.** Exact IEEE-754 rounding of the colour arithmetic and of
  the mean is not modelled. All arithmetic is over exact reals. A truncated
  channel can differ from the float result only when x * 255 lies within
  rounding distance of an integer.
- **Infinite coordinates.** These are not modelled. The parser and
  `to_numeric` read `inf`, `-inf` and overflowing literals as infinities, and
  `dropna` keeps those rows. The mean is then infinite, or NaN when both signs
  occur. The oracle's cells are finite reals or NaN, so it cannot produce
  these.
- **UI.** The Streamlit UI is not modelled: page set-up, sidebar, uploader,
  radius slider, basemap selector, `st.stop` and `st.error` (lines 6-8 and
  79-98).
- **Map rendering.** pydeck tile-URL choice, layer and `Deck` construction, the
  tooltip and attribution (lines 105-149) are rendering configuration with no
  logic of their own.
- Palette.CheckedPalette: refuses 995 and 996 colours, although those palettes
  also appear to be pairwise distinct. The distinctness proof needs hues at
  least a 994th of a turn apart, and 995 or 996 colours would need a finer,
  entry-by-entry argument.
- Palette.Hue2RgbBetween: the bound is stated only for t in [-1, 2]. Outside
  that range one wrap step does not bring t into [0, 1], and `hue2rgb` can leave
  [p, q]. The callers pass only t in [-1/3, 4/3).

## Findings

| source | as written | input that shows it | evidently intended | confidence | as-written member | corrected member |
|---|---|---|---|---|---|---|
| streamlit_app.py:101-103 | `distinct_palette_rgba(0)` returns one colour. Assigning a one-element list as a column of an empty frame makes pandas grow the frame to one row with NaN coordinates. `len(df) > 0` then holds, so the view is centred on NaN at zoom 8. | a CSV whose only line is `lat,lon` (every row fails coercion, so the normalised table is empty) | an empty table opens at (39.5, -98.35), zoom 3, as lines 136-137 say | medium (depends on pandas growing an empty frame on column assignment); not executed | App.EmptyTableAsWritten | App.CorrectedShowsViewOfTable |
| streamlit_app.py:44-47 | The docstring promises `n` distinct colours. Channels are truncated to bytes, so hues closer than about a thousandth of a turn can give the same colour. | `distinct_palette_rgba(2000)`: entries 1 and 2 are both (210, 45, 44, alpha) | n pairwise different colours; the model guarantees this up to 994 colours and refuses more | high (exact arithmetic; float rounding could only shift a byte at an exact integer boundary); not executed | Palette.PaletteRepeatsColours | Palette.CheckedPalette |
