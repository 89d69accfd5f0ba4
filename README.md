# Travel itinerary backend — a Dafny model

`backend.py` is a small Flask service that works as follows:
1. It takes a trip description (source, destination, duration, budget and preferences).
2. It asks a text-generation service for a day-by-day itinerary.
3. It cleans the reply of markdown marks.
4. It renders the cleaned reply into a PDF document, with one bold cell per "Day " header line and a wrapped regular block for every other line.
5. It answers with the cleaned text and the document's path.

The model covers the text handling that surrounds the external calls:

- `Text` (`text.dfy`): the Python `str` operations the backend uses, with their laws. These are
  - `replace` of one character, by the empty string (`Remove`) or by a string (`ReplaceChar`);
  - `strip`, built from `TrimStart` and `TrimEnd`;
  - `split`;
  - `startswith`;
  - the concatenation of an f-string's pieces.

  The backend calls neither `count` nor `join`. `Count` and `Join` are defined only to state the line count and the round trip of `split`.
- `Generator` (`generator.dfy`): the prompt built from the five fields, and the cleanup of the service's reply (`Clean`). The service is a parameter, a function from the prompt to its reply, or `None` when the call fails.
- `Renderer` (`renderer.dfy`): `save_to_pdf`.
  - The document is a class `Pdf` whose fields are the trace of writes it has received and its current font.
  - `SaveToPdf` is the loop of the source. Its contract states the writes in terms of the function `RenderPlan`.
  - Each write records the font in effect when it was issued: `Cell(Bold, line)` for a header cell, `MultiCell(Regular, line)` for a body block.
- `Handlers` (`handlers.dfy`): the `/generate_itinerary` handler.
  - An absent field becomes `""`.
  - The answer pairs the cleaned text with the fixed path `"itinerary.pdf"`.
  - A body that is not a JSON object, or a failed service call, is an error. There are two kinds of bad body:
    - A body that does not parse is rejected by Flask at `request.json` (backend.py:71) with a client error.
    - A parsed value that is not an object, such as `null` or a list, makes `data.get` (backend.py:73) raise, and Flask answers with a server error.

    A failed service call also raises a server error.
  - Two forms are modelled:
    - The pure function `Respond`.
    - The step-by-step method `GenerateItineraryApi`, proved to give the same answer. It also returns the document it wrote. That document holds the plan for the lines of the text it answers with.
- `Wrappers` (`wrappers.dfy`): `Option`.

## Model

| member | source | states |
|---|---|---|
| Text.Remove | backend.py:43 | `s.replace(c, "")` leaves no `c`, and is shorter by exactly the number of `c`s |
| Text.RemoveKeepsOthers | backend.py:43 | deleting `c` keeps every other character as often as it occurred |
| Text.RemoveKeepsAbsent | backend.py:43 | deleting a character introduces no character that was absent |
| Text.RemoveAbsent | backend.py:43 | deleting a character that does not occur is the identity |
| Text.TrimStart | backend.py:43 | `lstrip` drops exactly a whitespace prefix, and the rest does not start with whitespace |
| Text.TrimEnd | backend.py:43 | `rstrip` drops exactly a whitespace suffix, and the rest does not end with whitespace |
| Text.Strip | backend.py:43 | `strip` is a piece of `s` with only whitespace outside it, and it has no surrounding whitespace |
| Text.StripUnique | backend.py:43 | any piece of `s` with only whitespace outside it and none at its own ends is `Strip(s)` |
| Text.StripKeepsAbsent | backend.py:43 | stripping introduces no character that was absent |
| Text.StripNoSurroundingSpace | backend.py:43 | a string without surrounding whitespace is its own strip |
| Text.ReplaceChar | backend.py:54 | after replacing `c` by a string without `c`, no `c` is left |
| Text.ReplaceCharConcat | backend.py:54 | replacement distributes over concatenation, so each character is rewritten on its own |
| Text.ReplaceCharAbsent | backend.py:54 | replacing a character that does not occur is the identity |
| Text.ReplaceCharCount | backend.py:54 | every other character occurs as often as before, plus what each inserted `rep` holds |
| Text.ReplaceCharLength | backend.py:54 | the length grows by `|rep| - 1` for each replaced character |
| Text.Split | backend.py:57 | `split(sep)` gives one piece more than the number of separators, and no piece holds a separator |
| Text.JoinSplit | backend.py:57 | joining the pieces of a split with the separator gives back the text |
| Text.SplitJoin | backend.py:57 | splitting a join of separator-free pieces gives back the pieces |
| Text.JoinKeepsAbsent | backend.py:57 | joining lines brings in no character except the separator |
| Text.TrimmedAtUnique | backend.py:43 | two trims of `s` without surrounding whitespace are the same piece |
| Text.ConcatHoldsPiece | backend.py:33-38 | every piece of the concatenation occurs in it as a substring |
| Text.ConcatHoldsAdjacent | backend.py:33-38 | two neighbouring pieces occur together in the concatenation |
| Generator.Clean | backend.py:43 | the cleaned text holds no `*`, `#` or `-` and has no surrounding whitespace |
| Generator.KeepPlainUnchanged | backend.py:43 | text without markdown marks passes the one-pass filter unchanged |
| Generator.RemovalsAreKeepPlain | backend.py:43 | the three `replace` calls in a row are the one-pass filter that keeps the non-mark characters in order |
| Generator.CleanIsStrippedKeepPlain | backend.py:43 | the cleaned text is the strip of the input with the marks filtered out, the survivors kept in order |
| Generator.CleanUnchanged | backend.py:43 | text without marks and without surrounding whitespace is returned unchanged |
| Generator.CleanIdempotent | backend.py:43 | cleaning twice is cleaning once |
| Generator.CleanDropsMarkup | backend.py:43 | for plain words `d`, `r` and `f`, `*d* -r- #f#` is cleaned to `d r f` |
| Generator.CleanPlainExample | backend.py:43 | `"Day 1:\nRelax\nDay 2:\nExplore"` is returned unchanged |
| Generator.PromptEmbedsFields | backend.py:33-38 | the prompt holds each of the five fields as a substring, asks for a `duration`-day itinerary and asks for 'Day X:' headers |
| Generator.GenerateItinerary | backend.py:29-45 | the service is asked with the prompt; the value returned is exactly `Clean` of its reply, and a failed call propagates as a failure |
| Renderer.Pdf.constructor | backend.py:49-51 | a new document has received no write and is in the regular font |
| Renderer.Pdf.SetFont | backend.py:60 | `set_font` changes the font and writes nothing |
| Renderer.Pdf.WriteCell | backend.py:61 | `cell` appends one single-line cell in the current font and leaves the font |
| Renderer.Pdf.WriteMultiCell | backend.py:64 | `multi_cell` appends one wrapped block in the current font and leaves the font |
| Renderer.SaveToPdf | backend.py:48-67 | the document receives exactly the plan for the lines of the normalised text; the font is regular after every iteration; the path is `"itinerary.pdf"` |
| Renderer.RenderPlanSnoc | backend.py:58-64 | one more line adds exactly that line's write at the end of the plan |
| Renderer.RenderPlanAt | backend.py:58-64 | one write per line, in order; each carries its line unchanged and is a bold cell exactly when the line starts with "Day ", a regular block otherwise |
| Renderer.RenderPlanLength | backend.py:58-64 | the plan has one write per line |
| Renderer.RenderCount | backend.py:54-64 | the document receives one write per newline of the text, plus one |
| Renderer.NormalizeCurrencySpec | backend.py:54 | no rupee sign is left; each one adds two characters; every other character keeps its count except for the "Rs." pieces; rupee-free text is unchanged |
| Renderer.NormalizeCurrencyConcat | backend.py:54 | normalisation distributes over concatenation |
| Renderer.DayHeaderExamples | backend.py:59 | "Day 3: museum visit" is a day header, and "Daydreaming is not a day header" is not |
| Handlers.Respond | backend.py:70-84 | a body that is not an object fails; a success answers with `"itinerary.pdf"` and with text free of marks and surrounding whitespace |
| Handlers.GenerateItineraryApi | backend.py:70-84 | the handler, rendering the document and answering with the path it returns as the code does, gives exactly `Respond`; a document is written exactly on success, and it holds the plan for the lines of the text answered |
| Handlers.RespondSpec | backend.py:73-84 | a body succeeds exactly when the service answers its prompt; a success carries the cleaned reply and `"itinerary.pdf"`; a failed call fails the request |
| Handlers.AbsentFieldIsEmpty | backend.py:73-77 | an absent field gives the same prompt and the same answer as the field given as `""` |
| Handlers.RequestPromptCarriesFields | backend.py:33-38 | the prompt sent holds every field of the body, with `""` for an absent one |
| Handlers.RespondPlainReply | backend.py:79-84 | when the service answers the request's prompt with a reply without marks and without surrounding whitespace, that reply is answered unchanged, with `"itinerary.pdf"` |
| Handlers.ScenarioResponse | backend.py:70-84 | the Pune–Goa request, whose prompt the service answers with a plain three-day reply, is answered with that reply and `"itinerary.pdf"` |
| Handlers.ScenarioReplyPlain | backend.py:43 | the scenario reply has no markdown mark and no surrounding whitespace |
| Handlers.RunScenario | backend.py:70-84 | run through the handler, the Pune–Goa scenario answers with the reply and `"itinerary.pdf"`, and the document written holds three bold day cells, each followed by its regular activity block |
| Handlers.RenderJoinedLines | backend.py:54-57 | rupee-free text made of newline-free lines is rendered line by line |
| Handlers.ScenarioReplyIsJoin | backend.py:57 | the scenario reply is its six lines joined by newlines |
| Handlers.ScenarioDocument | backend.py:54-64 | the document for the scenario reply receives the plan for its six lines |
| Handlers.ScenarioPlan | backend.py:58-64 | that plan is three bold day cells, each followed by its regular activity block |

## Left out

- The text-generation service (backend.py:30, 40) is a network call. It is a parameter `string -> Option<string>`, where `None` stands for a failed call. The model name and the credentials loaded from the environment (backend.py:8-10) are not modelled.
- The layout engine: page creation, cell widths, line wrapping, the per-page `header` banner and the file write (backend.py:16-19, 49-51, 66). Only the sequence of writes, and the font each write is issued in, is modelled.
- Writes that fail: the layout engine's built-in fonts accept only Latin-1 text, so a reply holding other non-Latin-1 characters would fail at rendering. The model renders any text.
- `PDF.add_day` (backend.py:21-26) is never called.
- Flask routing, CORS, JSON parsing, the `jsonify` encoding, and the download endpoint with its `send_file` (backend.py:1-13, 69-71, 86-91).
- Handlers.Respond: two kinds of bad body are merged into the single input `None` and the single error `NotAJsonObject`, and the HTTP status codes are not modelled. The two kinds are:
  - a body that does not parse, which Flask rejects at backend.py:71 with a client error;
  - a parsed non-object, on which `data.get` raises at backend.py:73, giving a server error.
- The race between concurrent requests on the shared `itinerary.pdf` file.
- Text.IsSpace: `strip` uses a fixed set of whitespace characters: space, tab, line feed, carriage return, vertical tab and form feed. Python's `str.isspace` also holds for U+001C..U+001F, U+0085, U+00A0 and the other Unicode spaces, which this model keeps as ordinary characters.
- Handlers.Request: field values are strings. A JSON number or other non-string value would be formatted into the prompt by the f-string; that formatting is not modelled.
