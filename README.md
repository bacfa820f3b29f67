# Brand-guide colour pipeline: a Dafny model

The analyser reads a brand-guide PDF and reports the brand's colour palette and
identity. Most of the program is glue around a language-model agent. This
project models the three parts of `agent.py` that are deterministic and proves
properties about them:

- **The CMYK to hex converter** (`converter_cmyk_para_hex`). It is modelled in
  module `CmykConversion`, file `cmyk_conversion.dfy`. The converter finds the
  maximal runs of digits in its argument and reads them as C, M, Y, K. Any
  other number of runs gives the error text `Formato CMYK inválido: <input>`.
  With four runs it computes each channel as `255·(1−x/100)·(1−k/100)`,
  truncates it, and formats `#rrggbb` with Python's `02x`.
- **The two extraction tools** (`analisar_pdf_texto` and
  `analisar_pdf_imagem_ocr`). They are modelled in module `TextAcquisition`,
  file `text_acquisition.dfy`. A document is the sequence of the texts its
  pages yield, plus a flag that says whether the path exists. The tools return
  an error for a missing path. Otherwise they append every page followed by
  `"\n\n"`, and they return an error when the result is blank under Python's
  `str.strip()`.
- **The per-colour rule and the choice of agent.** They are modelled in module
  `ColorResolution`, file `color_resolution.dfy`. The per-colour rule is
  instruction text for the model, not code. A complete hex token (`#` plus six
  characters) is used as found. Otherwise the CMYK string goes to the
  converter. With neither, the image instruction reports "Não encontrado", and
  the text instruction reports only what it found. The agent is chosen by
  document type: `texto` gets the text extractor, and any other answer gets the
  OCR extractor. Both agents get the converter.

`AccumulatePages` is the page loop the two tools share, written as a method
with a loop invariant. The converter and the colour rule are pure functions.

Decisions the model takes from the code of agent.py:

- A hex token is complete when it is `#` followed by exactly six characters of
  any kind (agent.py:100). A six-character token with a non-hex character,
  such as "#1A2B3O", is used as found.
- A complete token is used as found, with its case kept (agent.py:82, 100):
  "#1A2B3C" is reported as "#1A2B3C". Only the converter's own answers are
  lower case.
- The converter does not range-check its components (agent.py:62-66). A
  component above 100 still yields a colour text, which `OutOfRangeFormat`
  describes.
- Both instructions trust a complete hex token before a CMYK string
  (agent.py:82-83, 99-104). They differ only in what they report for a colour
  with neither (agent.py:85, 110); `PoliciesDifferOnlyWhenNothingFound`
  states this.
- A missing or broken OCR engine has no error of its own. It is reported only
  through the OCR tool's catch-all wrapper (agent.py:56), which is not
  modelled.

## Model

| member | source | states |
|---|---|---|
| CmykConversion.DigitPrefixLength | agent.py:62 | the result is the length of the longest all-digit prefix: every character before it is a digit, and the next one, if any, is not |
| CmykConversion.DigitRuns | agent.py:62 | every run found is a non-empty string of digits |
| CmykConversion.RunCount | agent.py:62 | the number of runs equals the count from an independent one-bit scan, which counts each digit not preceded by a digit |
| CmykConversion.RunsKeepEveryDigit | agent.py:62 | the runs joined together are exactly the digits of the input, in order; no digit is lost or reordered |
| CmykConversion.SeparatorSplitsRuns | agent.py:62 | any non-digit character ('-', '.', ',', letters, blanks) splits the input's runs at that point and does nothing else |
| CmykConversion.DecimalRoundTrip | agent.py:62 | reading the shortest numeral of n as a decimal gives back n (the partner of int() on a run) |
| CmykConversion.LeadingZeroDropped | agent.py:62 | a leading '0' does not change a run's value, so "007" reads as 7 |
| CmykConversion.DecimalValue | agent.py:62 | `int()` on a run of digits; its contract is carried by `DecimalRoundTrip` (it inverts the shortest numeral) and `LeadingZeroDropped` |
| CmykConversion.Components | agent.py:62 | there is one non-negative component per digit run |
| CmykConversion.Channel | agent.py:64-65 | one channel, `255·(1−x/100)·(1−k/100)` truncated, in exact arithmetic; its contract is carried by `ChannelInRange` |
| CmykConversion.ChannelInRange | agent.py:64-65 | for x, k in 0..100 the channel lies in 0..255 and is the integer part of 255·(100−x)·(100−k)/10000 |
| CmykConversion.Format02x | agent.py:66 | Python's `:02x`; its contract is carried by `ByteFormat`, `ByteRoundTrip` and `OutOfRangeFormat` |
| CmykConversion.ByteFormat | agent.py:66 | `02x` of a byte is exactly its high and low lower-case hex digits |
| CmykConversion.ByteRoundTrip | agent.py:66 | a byte formatted with `02x` is two lower-case hex digits that read back as the same byte |
| CmykConversion.OutOfRangeFormat | agent.py:66 | a negative channel is written with a '-' sign, and a channel above 255 takes three or more characters |
| CmykConversion.ConvertCmykToHex | agent.py:59-66 | the result is the format error exactly when the input does not hold four digit runs, and the error quotes the input |
| CmykConversion.Conversion.Text | agent.py:63-66 | the converter's returned string, the colour or "Formato CMYK inválido: " and the input; its contract is carried by `InvalidIffNotFourRuns` and `ConversionIsNotNotFound` |
| CmykConversion.InvalidIffNotFourRuns | agent.py:62-63 | the format error is returned exactly when the independent scan counts a number of runs other than 4, and its text is "Formato CMYK inválido: " followed by the input |
| CmykConversion.InRangeConversion | agent.py:64-66 | with four components in 0..100 the result is '#' and six lower-case hex digits, and they encode the truncated red, green and blue channels in that order |
| CmykConversion.BlackWhenKeyFull | agent.py:65-66 | K = 100 gives #000000 whatever C, M and Y are |
| CmykConversion.WhiteWhenNoInk | agent.py:65-66 | components 0,0,0,0 give #ffffff whatever separates them |
| CmykConversion.RedWhenMagentaAndYellowFull | agent.py:65-66 | components 0,100,100,0 give #ff0000 whatever separates them |
| CmykConversion.SeparatorIrrelevant | agent.py:62-66 | swapping one separator character for another keeps the result: both are errors, or both give the same colour |
| CmykConversion.SameRunsSameColour | agent.py:62-66 | any two inputs with the same digit runs, whatever text surrounds them, are both errors or give the same colour |
| CmykConversion.SpellRuns | agent.py:62 | four numbers written with any non-digit text around them tokenize to their four numerals |
| CmykConversion.SpellRoundTrip | agent.py:62-64 | four numbers written in any layout of non-digit text are read back as exactly those four components |
| CmykConversion.WhiteForZeros | agent.py:62-66 | "0 0 0 0" converts to #ffffff |
| CmykConversion.RedExample | agent.py:62-66 | "C:0 M:100 Y:100 K:0" converts to #ff0000 |
| TextAcquisition.StripLeading | agent.py:36 | the result is the longest suffix that does not start with Python whitespace; everything cut off is whitespace |
| TextAcquisition.StripTrailing | agent.py:36 | the result is the longest prefix that does not end with Python whitespace; everything cut off is whitespace |
| TextAcquisition.Strip | agent.py:36 | Python's `str.strip()`; its contract is carried by `StripLeading` and `StripTrailing` |
| TextAcquisition.IsBlank | agent.py:36 | the test `not texto_completo.strip()`; its contract is carried by `BlankIffAllSpace` |
| TextAcquisition.BlankIffAllSpace | agent.py:36 | `not s.strip()` holds exactly when every character of s is whitespace |
| TextAcquisition.Joined | agent.py:32-35 | the accumulated text; its contract is carried by `JoinedAppend`, `JoinedFirstPage`, `JoinedPageAt`, `JoinedLength` and `JoinedAllSpace` |
| TextAcquisition.AccumulatePages | agent.py:32-35 | the loop's text is the in-order join of every page followed by "\n\n" |
| TextAcquisition.JoinedAppend | agent.py:34-35 | reading two runs of pages one after the other gives their two texts one after the other |
| TextAcquisition.JoinedFirstPage | agent.py:34-35 | the text starts with page 0, then "\n\n", then the text of the remaining pages |
| TextAcquisition.JoinedAround | agent.py:34-35 | a page read between two stretches of pages appears, followed by "\n\n", between the two stretches' texts |
| TextAcquisition.JoinedPageAt | agent.py:48-53 | page i sits right after the text of the earlier pages, followed by "\n\n" and then the later pages |
| TextAcquisition.JoinedLength | agent.py:32-35 | the text is as long as all pages together plus 2 characters per page |
| TextAcquisition.JoinedAllSpace | agent.py:35-36 | the accumulated text is all whitespace exactly when every page is |
| TextAcquisition.JoinedBlankIffPagesBlank | agent.py:53-54 | the accumulated text is blank exactly when every page is blank, and zero pages give blank text |
| TextAcquisition.ExtractText | agent.py:27-37 | a missing path gives "Arquivo não encontrado: <path>" whatever the pages hold. Otherwise the tool gives the full text exactly when some page is not blank, and "Nenhum texto foi encontrado no PDF." when none is. Full text is never blank |
| TextAcquisition.ExtractTextOcr | agent.py:41-55 | the same as ExtractText over the OCR page texts, with the blank-result error "O OCR não conseguiu extrair nenhum texto do PDF." |
| ColorResolution.SelectAgent | agent.py:134-139 | "texto" and only "texto" gets the text instruction and the direct extractor. Every other answer gets the OCR extractor. Both agents get the converter, and each gets two tools |
| ColorResolution.ExtractorMatchesPolicy | agent.py:134-139 | each agent's extractor matches its instruction, and no agent has both extractors |
| ColorResolution.Resolve | agent.py:81-110 | the token is used as found exactly when it is complete. Otherwise the converter's answer on the CMYK string is used when one is present. With neither, the text instruction drops the colour and the image instruction reports it as not found |
| ColorResolution.IsCompleteHex | agent.py:100 | `#` and six characters; its contract is carried by `Resolve`, `IncompleteHexIgnored` and `ConvertedColourIsComplete` |
| ColorResolution.IncompleteHexIgnored | agent.py:100-101 | an incomplete token such as "#FFF" or "#1234F" has the same outcome as no token: it is never repaired |
| ColorResolution.PoliciesDifferOnlyWhenNothingFound | agent.py:81-83 | the two instructions resolve a colour differently exactly when it has neither a complete token nor a CMYK string |
| ColorResolution.ReportedTextHasASource | agent.py:89 | what the report shows for a colour is the complete token as found, the converter's answer on that colour's CMYK string, or "Não encontrado" (image instruction only) |
| ColorResolution.ConvertedColourIsComplete | agent.py:102-104 | a colour resolved from in-range CMYK is a lower-case "#rrggbb", which is itself a complete token |
| ColorResolution.ResolvePalette | agent.py:97-110 | under the image instruction every identified colour is reported in order, each resolved on its own |
| ColorResolution.CleanPaletteKeepsResolved | agent.py:81-85 | under the text instruction the report is exactly what the image instruction reports for the colours that had a complete token or a CMYK string, in order and with the same values; the others are dropped |
| ColorResolution.CleanPaletteNeverNotFound | agent.py:81-85 | under the text instruction no reported colour reads "Não encontrado" |
| ColorResolution.Resolved | agent.py:81-83 | every colour kept for the text report came from the input and resolves to something, and every input colour that resolves is kept |
| ColorResolution.ResolvedAppend | agent.py:81-83 | filtering keeps order: the colours kept from two stretches are those kept from the first, then those kept from the second |
| ColorResolution.ConversionIsNotNotFound | agent.py:63-66 | the converter's answer never reads "Não encontrado" |
| ColorResolution.CorruptedHexFallsBackToCmyk | agent.py:101-104 | on OCR text, "#1A2B", "#FFF" and "#1234F" next to "CMYK(10,20,30,40)" resolve through the converter to #897a6b |
| ColorResolution.CompleteHexUsedAsFound | agent.py:100 | "#1A2B3C" is used as found, case kept, with or without a CMYK string |

## Left out

- Floating point. The source computes the channels in binary doubles and then
  truncates (agent.py:64-66). The model uses exact integer arithmetic,
  `(255·(100−x)·(100−k)) / 10000`, truncated toward zero. The two can differ
  when the exact value is a whole number. For C = 0 and K = 80 the exact
  channel is 51, but `1 − 0.8` is `0.19999999999999996` in doubles, so Python
  gets 50. No bit-for-bit agreement is claimed.
- CmykConversion.InRangeConversion: holds only when all four components are at
  most 100. The source does not range-check them. `OutOfRangeFormat` states
  what then happens to the text: a '-' sign for a negative channel, and three
  or more digits for a channel above 255.
- Unicode digits. Python's `\d` also matches non-ASCII decimal digits. The
  model's tokenizer accepts ASCII '0'..'9' only.
- The PDF library and the OCR engine (`fitz.open`, `page.get_text`,
  `get_pixmap(dpi=300)`, `Image.frombytes`, `pytesseract.image_to_string` with
  `lang='por'`). They are foreign calls. Their output is an input sequence of
  page texts, and the path's existence is an input flag.
- The per-page progress message printed by the OCR tool (agent.py:49). It is
  output only.
- The catch-all exception wrappers of the two extraction tools (agent.py:38,
  56). They turn faults of the PDF library and the OCR engine into error text.
- CmykConversion.ConvertCmykToHex: does not model the converter's own error
  path (agent.py:67), because the model's arithmetic is exact and never fails.
  In the source, a component of some 308 digits or more makes the double
  arithmetic overflow. `float()` then raises, or `int()` meets an infinity or
  NaN, and the source returns "Erro ao converter CMYK: " and the exception's
  message. For example, C = 10^308 and K = 100 give NaN. The model returns a
  colour for such input, e.g. "#000000" by `BlackWhenKeyFull`. On Python 3.11
  and later, `int()` also refuses a digit run longer than 4300 digits
  (agent.py:62), with the same kind of error text.
- Palette-section scoping ("Cores Primárias", "Primary", "Secondary",
  agent.py:79-80). The source gives it as loose instruction text with no
  grammar. The model starts from the colours already found in the palette.
- Brand name, description, URLs, tone of voice and fonts (agent.py:84, 107). The
  language model extracts them.
- The language model, the agent framework and prompt assembly
  (agent.py:69, 141-152), the Tesseract path configuration read at start-up
  (agent.py:19-23), and the interactive loop with `input()` and `print`
  (agent.py:114-159). This includes the loop that re-asks until the answer is
  "texto" or "imagem" (agent.py:127-128). `SelectAgent` takes any answer, as the
  `else` branch at agent.py:137 does.
- Same digit runs, same output: this holds only for colours. The format error
  quotes the input, so two inputs with the same runs but different separators
  give different error text. `SameRunsSameColour` states the part that holds.
