# Car Wi-Fi monitoring scraper — a Dafny model of the extraction pipeline

This project models the extraction half of the monitoring scraper (`src/scraper.py`).
The scraper downloads the monitoring page. It reads three totals from the page: all cars, cars
working, and cars not working. It then reads the device table, renaming its column headers to
`Carro`, `Último Acesso` and `Status`.

Modules:

- `Wrappers`: `Option` and `Result`.
- `Errors`: `MonitoramentoError`, the scraper's single error kind. It has two variants: the page
  could not be downloaded, or the page holds no table.
- `Text`: the Python string primitives the scraper relies on. These are the `\s` whitespace class
  (the same set that `str.strip()` removes), decimal digits, `str.lower()`, `str.strip()` and the
  `in` substring test.
- `Resumo`: `parse_resumo`.
  - Each `re.search(r"<label>\s*(\d+)", html)` becomes a leftmost-match search: the label, the
    maximal whitespace run, then at least one digit.
  - The captured group is the maximal digit run.
  - `_to_int` turns a missing match into 0.
  - The warning flag is raised when some label is absent.
- `Tabela`: `parse_tabela`, over the list of tables the HTML table parser returns.
  - An empty list is the error.
  - The first table is used.
  - The loop that builds the renaming dictionary is a method with a `for` loop. It is proved
    against the function `ParsedTable`.
- `Scraper`: `fetch_html`'s error mapping and `get_monitoramento`, the composition.

The search runs on the raw HTML string, exactly as `src/scraper.py:58-64` does. Markup between a
label and its number therefore hides the number; `Resumo.MarkupBeforeNumber` proves this.
Stripping the markup first would give a different result.

## Model

| member | source | states |
|---|---|---|
| Text.IsSpace | src/scraper.py:58-63 | the `\s` class, which is also the set `strip()` removes: exactly the characters Python's `str.isspace()` accepts |
| Text.Strip | src/scraper.py:106 | `str.strip()`: the left trim followed by the right trim, never longer than its input (its properties are the lemmas below) |
| Text.Lower | src/scraper.py:106 | `str.lower()`, character by character, keeping the length |
| Text.Contains | src/scraper.py:107-111 | Python's `needle in s`: the needle occurs at some position of `s` |
| Text.DigitsValue | src/scraper.py:73 | `int()` of a run of decimal digits, read most significant digit first |
| Text.DigitsValueLeadingZeros | src/scraper.py:73 | leading zeros do not change the value, as `int("007") == 7` |
| Text.DigitsValueBound | src/scraper.py:73 | a run of `n` digits is worth less than `10^n` |
| Text.TrimLeftSuffix | src/scraper.py:106 | `strip()`'s left half removes a whitespace-only prefix and stops at the first non-whitespace character |
| Text.TrimRightPrefix | src/scraper.py:106 | `strip()`'s right half removes a whitespace-only suffix and stops at the last non-whitespace character |
| Text.StripBorders | src/scraper.py:106 | a stripped header neither starts nor ends with whitespace |
| Text.StripWindow | src/scraper.py:106 | a stripped header is a contiguous slice of the header with only whitespace cut off on each side |
| Text.StripUnpadded | src/scraper.py:106 | a header with no whitespace at either end is its own `strip()` |
| Text.StripPadding | src/scraper.py:106 | whitespace added on either side does not change `strip()` |
| Text.StripLower | src/scraper.py:106 | `strip()` and `lower()` commute, since lower-casing maps whitespace to whitespace and nothing else to whitespace |
| Text.LowerIdempotent | src/scraper.py:106 | lower-casing twice is lower-casing once |
| Text.LowerChar | src/scraper.py:106 | lower-casing keeps whitespace and non-whitespace apart, and maps `A`..`Z` to `a`..`z` |
| Text.DigitValue | src/scraper.py:73 | `int()` of one decimal digit is below 10 |
| Resumo.LiteralLabelAtIff | src/scraper.py:58-61 | a label without character classes fits at a position exactly when its text occurs there |
| Resumo.MatchAt | src/scraper.py:58-63 | the pattern `label\s*(\d+)` matches at a position: the label fits there and a digit follows the maximal whitespace run after it |
| Resumo.CaptureAt | src/scraper.py:72-73 | `int(match.group(1))`: the value of the maximal digit run after the label and its whitespace |
| Resumo.Extracts | src/scraper.py:72-73 | what a field must hold: 0 when the pattern matches nowhere, otherwise the captured value of the leftmost match |
| Resumo.SkipSpaces | src/scraper.py:58-63 | `\s*` consumes the maximal whitespace run: all whitespace up to a non-whitespace character or the end |
| Resumo.DigitRunEnd | src/scraper.py:58-63 | `(\d+)` captures the maximal digit run: all digits up to a non-digit or the end |
| Resumo.SearchFrom | src/scraper.py:58-63 | the search from a position finds a match at or after it with no match in between, or reports that none exists from there on |
| Resumo.Search | src/scraper.py:58-63 | `re.search` returns the leftmost match, and finds none exactly when the label pattern matches nowhere |
| Resumo.FindLabelValue | src/scraper.py:72-73 | the value is 0 when the label never matches, and otherwise the integer of the digits captured at the leftmost match |
| Resumo.ExtractsUnique | src/scraper.py:72-73 | the extracted value is determined by the page and the label |
| Resumo.ParseResumo | src/scraper.py:75-79 | the summary has all three fields, each extracted from the page independently with its own label (with `int()` unbounded; see "Left out") |
| Resumo.ResumoIncomplete | src/scraper.py:66-70 | the warning is raised exactly when at least one of the three labels has no match |
| Resumo.MissingLabelGivesZero | src/scraper.py:72-79 | a field whose label matches nowhere is 0 |
| Resumo.AbsentLabelTextGivesZero | src/scraper.py:58-79 | a page on which a label's text never occurs (for the not-working label, neither spelling) reports 0 for that field |
| Resumo.LabelsDisjoint | src/scraper.py:58-63 | at any one position at most one of the three labels fits: `Total de Carros:` needs the colon right after `Carros` |
| Resumo.NotWorkingSpellings | src/scraper.py:62-63 | the not-working label fits at a position exactly when `Nao` or `Não` is spelled out there |
| Resumo.LineMatches | src/scraper.py:58-64 | a label followed by whitespace and digits matches there and captures exactly those digits |
| Resumo.ThreeLinePage | src/scraper.py:53-64 | a page listing the three totals on their own lines, with any whitespace before each number and either spelling of `Não`, yields exactly those three numbers, whatever follows |
| Resumo.OtherLabelsGiveNoTotal | src/scraper.py:58 | a page holding only the working and not-working lines has overall total 0 |
| Resumo.MarkupBeforeNumber | src/scraper.py:58 | the raw page is searched: markup between `Total de Carros:` and its number makes the total 0 |
| Tabela.Classify | src/scraper.py:107-112 | a recognised lower-cased header is classified under one of the three canonical names |
| Tabela.CanonicalName | src/scraper.py:106-112 | a header that a rule recognises gets one of the three canonical names |
| Tabela.NormalizeHeader | src/scraper.py:104-115 | a header after renaming is either unchanged or a canonical name |
| Tabela.Rename | src/scraper.py:115 | renaming keeps the number of columns |
| Tabela.ParsedTable | src/scraper.py:93-115 | the result is an error exactly when there is no table, and that error is "no table". Otherwise the rows of the first table are kept and every header is normalised in place, so the column count and order are kept |
| Tabela.RecordHeader | src/scraper.py:106-112 | one loop pass: a recognised header is added with its canonical name, and the dictionary is otherwise unchanged |
| Tabela.BuildRenaming | src/scraper.py:104-112 | the dictionary's keys are headers of the table; a header is a key exactly when some rule recognises it, and it maps to its canonical name |
| Tabela.HasCanonicalColumns | src/scraper.py:117-118 | all of `Carro`, `Último Acesso` and `Status` are among the headers |
| Tabela.ParseTabela | src/scraper.py:93-125 | the table returned equals `ParsedTable`. The warning is raised exactly when a table is returned without all three canonical columns, and it never turns the result into an error |
| Tabela.CarroIsFixed | src/scraper.py:107-108 | `Carro` is renamed to itself |
| Tabela.UltimoAcessoIsFixed | src/scraper.py:109-110 | `Último Acesso` is renamed to itself |
| Tabela.StatusIsFixed | src/scraper.py:111-112 | `Status` is renamed to itself |
| Tabela.NormalizeIdempotent | src/scraper.py:104-115 | normalising a normalised header changes nothing |
| Tabela.CanonicalNameIgnoresCase | src/scraper.py:106 | the classification of a header and of its lower-cased form agree |
| Tabela.CanonicalNameIgnoresPadding | src/scraper.py:106 | whitespace around a header does not change its classification |
| Tabela.OnlyFirstTableCounts | src/scraper.py:102 | tables after the first have no influence on the result |
| Tabela.ParsedTableIdempotent | src/scraper.py:104-115 | normalising the table returned a second time gives it back unchanged |
| Tabela.StatusDoCarroIsCarro | src/scraper.py:107-112 | `Status do Carro` becomes `Carro`: the `carro` rule wins over the `status` rule |
| Tabela.StatusUltimoIsUltimoAcesso | src/scraper.py:109-112 | `Status Último` becomes `Último Acesso`: the `último` rule wins over the `status` rule |
| Tabela.UpperCaseCarroIsCarro | src/scraper.py:106-108 | `CARRO` becomes `Carro` |
| Tabela.PaddedCarroIsCarro | src/scraper.py:106-108 | `carro ` (trailing blank) becomes `Carro` |
| Tabela.CarroPrefixIsCarro | src/scraper.py:107-108 | `Carro X` becomes `Carro` |
| Tabela.UnaccentedUltimoIsUltimoAcesso | src/scraper.py:109-110 | `ultimo acesso` (no accent) becomes `Último Acesso` |
| Tabela.UnknownHeaderIsKept | src/scraper.py:104-115 | a header that no rule recognises (`Placa`) is kept verbatim |
| Scraper.FetchHtml | src/scraper.py:38-46 | a successful request gives the page text; any request failure becomes `MonitoramentoError` carrying the address and the cause |
| Scraper.GetMonitoramento | src/scraper.py:128-140 | a download failure is propagated without parsing. Otherwise the call fails exactly when the page holds no table, with the "no table" error, and on success it returns the parsed table and the summary of the same page (apart from the digit limit in "Left out") |
| Scraper.DegradedPage | src/scraper.py:66-79 | a page with a table and no recognisable totals succeeds with the summary (0, 0, 0) |
| Scraper.MissingColumnsDoNotFail | src/scraper.py:117-125 | a table lacking canonical columns is still returned |
| Scraper.CanonicalHeaderTable | src/scraper.py:104-115 | a table headed `Carro`, `Último Acesso`, `Status` comes back unchanged |
| Scraper.CanonicalHeadersComplete | src/scraper.py:117-118 | those three headers pass the column check, so no warning is raised |
| Scraper.ExamplePage | src/scraper.py:53-56 | the documented page (totals 117, 34 and 83, then a table with the canonical headers) yields exactly that table and those totals |

## Left out

- The HTTP request itself is not modelled: `requests.get`, the timeout, `raise_for_status` and re-decoding with the detected encoding. The outcome of the request is an input, either the page text or the failure's description.
- `pd.read_html` is not modelled. Its output is a function from the page text to the list of tables found. The empty list stands for both "raises `ValueError`" and "returns no table", which the code treats identically.
- Logging is only modelled as boolean warning flags: `ResumoIncomplete` and the second result of `ParseTabela`.
- Resumo.FindLabelValue: `int()` is modelled without Python's limit on decimal string conversion. Since Python 3.11 (and in security backports to older versions), `int()` raises `ValueError` on more than 4300 digits, the default of `sys.set_int_max_str_digits`. A page such as `Total de Carros: ` followed by 4301 digits therefore makes `parse_resumo` raise, and the model returns the number instead. The limit depends on the interpreter version and its configuration, so it is left out. `Text.DigitsValueBound` gives the size of the value a capture of a given length can take.
- Resumo.ParseResumo: "always returns all three fields" holds only under the unbounded `int()` above. A capture longer than the interpreter's limit makes the source raise instead.
- Scraper.GetMonitoramento: for the same reason, the source can also fail with `ValueError` (not `MonitoramentoError`) when a total has more digits than the interpreter's limit. The model has no such failure.
- Resumo.FindLabelValue: `\d` is taken as ASCII `0`-`9`. Python's `str` regex `\d` also accepts other Unicode decimal digits.
- Text.Lower: `str.lower()` is modelled exactly for Latin-1 and as the identity elsewhere. Outside Latin-1, only `İ` (U+0130) lowers into a letter of `carro`, `último`, `ultimo` or `status`. It lowers to `i` followed by a combining dot above (U+0307), and in those words `i` is always followed by `m`, so it cannot complete one of them. The other characters that lower into Latin-1 (for example `Ÿ`, `ẞ` and the Ångström sign) lower to letters outside those words. So the classification of every header is unaffected. This is an argument, not a proof.
- Column labels are strings. pandas also allows other label types, and `MultiIndex` headers; `str(col)` of those is not modelled.
- Duplicate column labels are renamed by name, as `DataFrame.rename` does. The DataFrame is modelled as headers plus rows of cell strings, with no dtypes and no index.
- Tabela.ParseTabela: `df.rename` runs only when the dictionary is non-empty. The model applies the same guard, and both paths give the same headers.
- `get_monitoramento`'s default address is the constant `Scraper.DefaultUrl`. The Python default argument itself is not modelled.
- The `__main__` block (printing) is not modelled.
- `src/app.py` is not modelled: the Streamlit interface, the update call, clocks and time zones, and display filtering and sorting.
