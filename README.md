# Spreadsheet-to-PDF conversion core, modelled in Dafny

This project models the conversion core of a Telegram bot. The bot turns the
active sheet of an `.xlsx` workbook into a PDF table and keeps each cell's
background colour. The model has four parts, all from `main.py`:

- **Colour resolution** (`get_cell_color`), module `ColorResolver`. A cell's fill
  becomes a colour string or no colour. A usable direct `rgb` code comes first and
  is returned unvalidated. Otherwise a theme index 0..9 gives its fixed Excel
  theme colour, and the tint is ignored. Everything else gives no colour,
  including indexed-palette colours.
- **Hex decoding** (`hex_to_reportlab_color`), module `HexColor`. A colour string
  becomes a ReportLab RGB colour or no colour. Empty values, the sentinels
  `"00000000"`, `"00"` and `"None"`, and lengths other than 6 or 8 are rejected.
  An 8-character value loses its alpha prefix. The three hex pairs become the
  channels, each as a byte over 255, kept exact as a `real`.
- **Grid extraction** (the loop of `parse_xlsx`), module `GridExtractor`, with
  module `PyStr` for Python's `str()` of cell values. Nested `for` loops over the
  sheet build a text grid and a colour grid of the sheet's shape.
- **Style construction** (the loop of `make_pdf`), module `TableRenderer`.
  The command list starts with `GRID`, `VALIGN MIDDLE` and `ALIGN CENTER` over
  the whole table. One single-cell `BACKGROUND` follows per decodable colour, in
  row-major order, with a counter of the backgrounds applied.

Module `Pipeline` joins the two steps the way the document handler does. It also
works through a two-by-two example sheet.

A malformed direct code does not fall through to the theme colour.
`get_cell_color` returns any non-empty `rgb` other than `00000000` as it is
(main.py:37-40). The decoder then rejects it, so the cell gets no background
even when it has a valid theme (`ColorResolver.DirectCodeWins`,
`Pipeline.MalformedCodeHidesTheme`).

## Model

| member | source | states |
|---|---|---|
| ColorResolver.GetCellColor | main.py:22-71 | A colour is returned only for a pattern fill that has a foreground colour. It is never empty or the transparent code `00000000`. It is either the raw `rgb` value or an entry of the theme table. |
| ColorResolver.ThemeTableEntries | main.py:48-59 | Every theme table entry is an 8-character code other than the transparent one. |
| ColorResolver.DirectCodeWins | main.py:36-40 | A present, non-empty `rgb` other than `00000000` is returned unvalidated, whatever theme is also present. |
| ColorResolver.ThemeFallback | main.py:42-62 | Without a usable `rgb`, theme 0..9 gives its fixed table entry, and any other or missing theme gives no colour. |
| ColorResolver.TintAndIndexedIgnored | main.py:42-66 | Changing the tint or the indexed-palette reference never changes the result. |
| ColorResolver.NoColorCases | main.py:24-71 | The result is no colour exactly in these cases: no fill, no foreground colour, or neither a usable `rgb` nor a theme 0..9. |
| HexColor.RgbDigits | main.py:104-116 | Six RGB digits are selected exactly when the value is present, is not a sentinel, and has length 6 or 8. They are the last six characters. |
| HexColor.ParseHexByte | main.py:118-121 | A pair is a byte below 256 exactly when both of its characters are hex digits. |
| HexColor.ByteToHex | main.py:119-121 | The two hex digits of a byte read back as that byte. |
| HexColor.HexToColor | main.py:102-126 | A colour is produced only when the RGB digits were selected, and all its channels lie in [0, 1]. |
| HexColor.SixDigitChannels | main.py:118-124 | Six characters decode exactly when all six are hex digits. The channels are then pairs [0:2], [2:4] and [4:6] over 255, and no partial colour is built. |
| HexColor.AlphaIgnored | main.py:111-114 | An 8-character value other than `00000000` decodes like its 6-character suffix. |
| HexColor.TransparentIsNoColor | main.py:108-109 | `00000000` gives no colour, while `FF000000` gives black. |
| HexColor.EncodeDecode | main.py:102-126 | The hex encoding of three bytes decodes back to those bytes over 255. This holds for six digits and with any alpha prefix, except the all-zero value. |
| HexColor.PyIntBase16 | main.py:119-121 | Python's `int(pair, 16)` on two characters gives a value from -15 to 255. It agrees with the byte reading on two hex digits and is negative only after a `-`. |
| HexColor.HexToColorAsWritten | main.py:102-126 | The decoder as written agrees with the corrected one wherever the corrected one gives a colour. |
| HexColor.SignedPairLeavesUnitRange | main.py:119-122 | As written, `-F0000` decodes to a red channel of -15/255, outside [0, 1]. The corrected decoder rejects it. |
| HexColor.PaddedPairAccepted | main.py:119-122 | As written, `FF F0000` decodes with red 15/255. The corrected decoder rejects it. |
| PyStr.NatToDecimal | main.py:91 | The decimal form of a natural number is a non-empty string of digits without leading zeros. |
| PyStr.DecimalRoundTrip | main.py:91 | Reading a natural number's decimal digits gives the number back. |
| PyStr.IntStringRoundTrip | main.py:91 | `str` of an integer reads back as that integer. |
| PyStr.Str | main.py:91 | `str` gives the text itself for text, a string that reads back for integers, and `True`/`False` for booleans. |
| PyStr.CellText | main.py:90-91 | An absent cell value gives the empty string. |
| GridExtractor.ParseSheet | main.py:83-99 | The text and colour grids have the sheet's row count and per-row lengths. Entry (i, j) is cell (i, j)'s text and resolved colour, in the sheet's row and column order. |
| GridExtractor.GridsOfSheet | main.py:83-99 | Grids that satisfy that contract equal the sheet's text and colour grids. |
| TableRenderer.MakePdf | main.py:134-153 | The table holds the given texts. The commands are the three whole-table commands followed by the row-major backgrounds. The counter equals the number of `BACKGROUND` commands. |
| TableRenderer.RowBackgroundsSound | main.py:146-151 | Each background of a row covers one decodable cell of that row with its colour, in increasing column order. |
| TableRenderer.BackgroundsSound | main.py:145-151 | Each background command covers one existing cell whose colour decodes to the command's colour. Cells without a colour get none. |
| TableRenderer.BackgroundsOrdered | main.py:145-150 | Background commands appear in strict row-major order of their cells. |
| TableRenderer.OneBackgroundPerCell | main.py:145-150 | No two background commands cover the same cell. |
| TableRenderer.RowBackgroundsComplete | main.py:146-150 | Every decodable cell of a row has its background command. |
| TableRenderer.BackgroundsComplete | main.py:145-150 | Every decodable cell of the grid has its background command. |
| TableRenderer.BaseStyleHasNoBackground | main.py:137-141 | The three whole-table commands include no background. |
| TableRenderer.CountAllBackgrounds | main.py:149-151 | A list made only of backgrounds counts all of them. |
| TableRenderer.CountAfterBase | main.py:137-151 | The whole-table prefix does not change the background count. |
| TableRenderer.StyleLayout | main.py:137-152 | The commands start with `GRID` (weight 1, black), `VALIGN MIDDLE` and `ALIGN CENTER` over (0,0)..(-1,-1), in that order. The background count is the number of per-cell commands. |
| Pipeline.Convert | main.py:181 | The table holds the sheet's text grid, and its commands are those of the sheet's colour grid. The counter equals the number of backgrounds. |
| Pipeline.CellBackgroundIff | main.py:86-152 | A cell gets a background of colour c exactly when its fill resolves to a string that decodes to c. |
| Pipeline.ThemeColorsDecode | main.py:48-124 | Every theme colour decodes. Accent1 (theme 4) is 4F/81/BD over 255. |
| Pipeline.MalformedCodeHidesTheme | main.py:37-150 | For any sheet, a cell whose fill has a usable `rgb` that does not decode gets no background command of any colour, whatever theme the fill also names. |
| Pipeline.MalformedCodeExample | main.py:37-40 | The code `ZZZZZZ` beside theme 4 is returned as it is by resolution and then fails to decode. |
| Pipeline.ExampleColorGrid | main.py:83-99 | The example sheet's colour grid holds the red code and accent1's code, and nothing else. |
| Pipeline.ExampleTextGrid | main.py:90-91 | The example sheet's texts are Name, Age, Alice and 30. |
| Pipeline.ExampleBackgrounds | main.py:143-152 | The example grid yields red at (0,0) and accent1 at column 0 of row 1, and no other backgrounds. |
| Pipeline.ConvertExample | main.py:181 | Converting the example sheet gives its four texts, the three whole-table commands and exactly those two backgrounds, with a count of 2. |

## Left out

- The Telegram bot is not modelled: the token, dispatcher and bot globals, the `start` and `convert` handlers, file download and upload, polling and `asyncio` (main.py:17-19, 160-193). These are network I/O. `Pipeline.Convert` stands for the single call at main.py:181.
- Opening the workbook is not modelled: `openpyxl.load_workbook`, the `FileNotFoundError` path that prints and calls `exit(-1)`, and `wb.active` (main.py:75-81). These are file I/O and process exit. The active sheet is given as its rows of cells.
- ReportLab's `Table`, `TableStyle`, `SimpleDocTemplate`, the `letter` page size and `doc.build` are not modelled (main.py:130-134, 155-157). These are foreign layout and rendering. `TableDoc` holds only the cell texts and the command list. `colors.black` is modelled as `Color(0.0, 0.0, 0.0)`.
- The `print` of the counter and the logging setup are not modelled (main.py:153, 192). They are diagnostic output only.
- The `__dict__` reflection and `hasattr` probing are replaced by the typed `Fill` and `ColorSpec` records (main.py:26-34). Raw attribute values of other Python types are not modelled, such as a non-string `rgb` or a float or boolean `theme`. The exception handler (main.py:68-69) has nothing to catch over these typed inputs, so `GetCellColor` is total.
- Channels are exact reals n/255. The source's floating-point division by 255.0 (main.py:119-121) is not modelled.
- HexColor.PyIntBase16: Python's `int` also accepts non-ASCII decimal digits, such as Arabic-Indic digits. The model rejects those pairs.
- PyStr.Str: `str()` of floats, dates and times is taken as a given string (`Rendered`), not computed.
- ReportLab colour objects are assumed to be always truthy, so `if bg_color:` (main.py:149) is modelled as "a colour was decoded".
- TableRenderer.MakePdf: this uses the corrected decoder `HexColor.HexToColor`. For a pair with a sign or surrounding whitespace, the source would add a background with that pair read as one signed digit; the model adds none (see Findings).

## Findings

| source | as written | input that shows it | evidently intended | confidence | as-written member | corrected member |
|---|---|---|---|---|---|---|
| main.py:119-121 | Each pair is read with `int(pair, 16)`, which also accepts a leading sign or whitespace around one digit. A signed pair gives a negative channel. | `"-F0000"` (also `"FF-F0000"`) decodes to red -15/255. `"FF F0000"` decodes to red 15/255. | Only two hex digits form a channel, every channel lies in [0, 1], and anything else gives no colour. | medium, not executed | HexColor.HexToColorAsWritten | HexColor.HexToColor |

`HexColor.SignedPairLeavesUnitRange` and `HexColor.PaddedPairAccepted` show the
discrepancy on these inputs. `HexColor.HexToColor` is the decoder the rest of the
model uses. `HexColor.SixDigitChannels` proves that it decodes exactly the
all-hex values, and its contract proves that every channel lies in [0, 1].
