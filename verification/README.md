# Clothing-label analysis handler, modelled in Dafny

The system is one serverless handler, `main` in `index.py`. It takes a request
body holding `images` (one base64 image or a list of them) and fits each image
onto a white 512×512 JPEG canvas. It then sends all of them, in order, to a
vision model's chat-completions endpoint, and turns the model's answer into a
list of per-item analyses. Each analysis gets a fixed confidence of 0.9.

The model covers the handler's own logic; the libraries it calls are parameters:

- `pystrings.dfy` (`PyStrings`): Python's `in`, `find`, `split` and `strip` on
  strings. `strip` takes its whitespace class as a parameter. The handler
  supplies Python's `str.isspace` set (`PyStrings.IsPySpace`).
- `fences.dfy` (`Fences`): the clean-up of the model's answer. It keeps the body
  of the first "```json" fence, or else of the first plain "```" fence, or else
  returns the answer untouched.
- `jsonvalue.dfy` (`JsonValue`): the loaded JSON values as Python sees them.
  Dicts keep insertion order. The module also covers truthiness, `in`, `v[key]`,
  `v[0]`, `d[key] = v` and the "wrap a non-list in a list" idiom.
- `shaping.dfy` (`Shaping`): wrapping a single parsed object into a list and
  stamping `confidence` on every item.
- `canvas.dfy` (`Canvas`): the canvas size and the centring offset at which
  the thumbnail is pasted.
- `payload.dfy` (`Payload`): normalising `images` to a list, encoding every
  image in order, and the user message. That message is one text block followed
  by one `data:image/jpeg;base64,` block per image.
- `handler.dfy` (`Handler`): `main` as a pure function. Its inputs are the API
  key lookup, the decoded body, the image encoder, the provider call and
  `json.loads`. Its output is the response: the analyses, or an error status
  with its cause.

Behaviour of the code worth knowing:

- An empty `images` list is not refused. Line 45 only tests that the key is
  present and that the whole body is truthy (`Handler.EmptyImageListAccepted`).
- Line 45's membership test also runs on list and string bodies. A list body
  without the string "images" is refused with 400. A string body that contains
  "images" passes the test and then raises on the subscript, giving a 500.
- Upstream failure is detected by an `error` key in the decoded answer, not by
  the HTTP status.
- Failures are answered with status 400 (no images) or 500 (everything else).

One behaviour of the "```json" branch is worth knowing. It splits on "```json"
first and only then on "```". So the body is the text after the opening fence,
cut first at any second "```json" and then at the first "```". When the first
"```" after the opening fence begins a run of four or more backticks that
overlaps a later "```json", Python keeps up to two of those backticks in the
body. `Fences.JsonBranch` gives the exact result in both cases. It also states
that the body ends at the first fence unless that fence starts such an
overlapping run.

## Model

| member | source | states |
|---|---|---|
| PyStrings.Find | index.py:136-139 | the index found is an occurrence and no occurrence comes before it; it exists exactly when the pattern is in the string (Python `in`) |
| PyStrings.Split | index.py:137-139 | `split` always yields at least one piece; it yields two or more exactly when the separator occurs; no piece contains the separator; joining the pieces with the separator gives back the input; every piece but the last ends at the leftmost occurrence in the text that remains from it, so the split is left to right and non-overlapping |
| PyStrings.Strip | index.py:137 | the result is a slice of the input with only whitespace cut away on either side, and it neither starts nor ends with whitespace |
| PyStrings.StripUnique | index.py:137-139 | any string with the strip property above is the result of `strip`, so `strip` is fully characterised |
| PyStrings.StripIdempotent | index.py:137-139 | stripping an already stripped string changes nothing |
| PyStrings.StripKeepsAbsent | index.py:137-139 | stripping never brings in a pattern (such as a fence) that the input lacked |
| Fences.CleanReply | index.py:136-139 | a reply without any "```" is returned exactly unchanged, not even stripped; a reply with a fence yields text containing no "```" |
| Fences.JsonBranch | index.py:136-137 | with "```json" present, the result is the stripped text after the first "```json", ending at a "```" or the end and holding no "```"; exactly, it is that text up to its first "```", where the text is first cut at a second "```json" if there is one; this is the text up to the first "```" unless that fence starts a four-backtick run overlapping a second "```json"; earlier plain fences play no part |
| Fences.PlainBranch | index.py:138-139 | without "```json", the result is the stripped text between the first and second "```", or to the end of the reply |
| Fences.FencedJsonReply | index.py:136-137 | the reply "text ```json body ``` text" cleans to the stripped body; the text before may even hold plain fences |
| JsonValue.Get | index.py:50 | a dict lookup finds a value exactly when the key is among the keys, and the value found is stored under that key |
| JsonValue.Put | index.py:148 | after `d[k] = v`, `k` maps to `v` and every other key keeps its value; an existing key keeps its place, and a new key is appended |
| JsonValue.PutKeepsDistinct | index.py:148 | item assignment never duplicates a key |
| JsonValue.PutTwice | index.py:147-148 | assigning the same key and value again changes nothing |
| JsonValue.InAgreesWithItem | index.py:45-50 | on a dict, `key in d` holds exactly when `d[key]` succeeds, and `d[key]` gives the stored value; on anything else the subscript raises TypeError |
| Shaping.Stamp | index.py:148 | a dict with `confidence` set holds the constant; its other keys are unchanged, and `confidence` is appended if it was missing |
| Shaping.StampConfidence | index.py:147-148 | stamping succeeds exactly when every item is a dict, and otherwise raises TypeError; on success the length and order are kept and every item is stamped |
| Shaping.ShapeAnalyses | index.py:143-148 | a parsed dict becomes one stamped item; a parsed list of dicts keeps its length and order, with every item stamped; anything else raises TypeError |
| Shaping.StampTwice | index.py:147-148 | stamping an already stamped list changes nothing |
| Canvas.PasteOffset | index.py:25 | for a 1..512 thumbnail on each axis, the offset keeps it inside the canvas; the trailing margin equals the leading margin or exceeds it by one |
| Canvas.PasteOffsetUnique | index.py:25 | the computed offset is the only centred placement |
| Canvas.PastedPixelsOnCanvas | index.py:22-26 | every pixel of the pasted thumbnail lies on the 512×512 canvas |
| Canvas.SquareMargins | index.py:25 | a square thumbnail gets equal left and top margins, and its opposite margins differ by at most one pixel |
| Payload.ProcessImages | index.py:55 | the list of encoded images succeeds exactly when every image encodes; it then has one entry per image, in order; otherwise its error is that of the first image that failed |
| Payload.ImageBlocks | index.py:90-96 | one `image_url` block per encoded image, in order, each with the `data:image/jpeg;base64,` prefix |
| Payload.ContentRoundTrip | index.py:82-96 | the user message reads back as exactly the encoded images, and it is the only message that reads back as them |
| Payload.SingleImageWrapped | index.py:51-52 | a value that is not a list is sent exactly as a one-image list would be: it fails with its own encoding error, or the request carries its one attachment and announces one image |
| Payload.PrepareRequest | index.py:50-117 | the request is built exactly when every image of the list-normalised `images` encodes; it names the model and the 2000-token budget, and carries one attachment per image, in order |
| Handler.ImagesField | index.py:44-50 | only a dict body gets past validation, and then yields its `images` value; the body is refused as "no images" exactly when it is falsy or the membership test for "images" answers false, whether the body is a dict, a list or a string; every other failure is a raised exception |
| Handler.ReplyText | index.py:133 | the answer text is found exactly when the reply is a dict whose `choices` is a non-empty list whose first entry holds a dict `message` with `content`; a non-dict reply raises TypeError and a missing `choices` raises KeyError |
| Handler.ParserInput | index.py:136-142 | the parser receives the cleaned text exactly when the answer's content is a string; any other content raises |
| Handler.ParseAndShape | index.py:142-148 | a parser failure is raised; otherwise the analyses are the shaping of the parsed value: one per list-normalised parsed item, in order, each that item with the confidence stamped; they are returned exactly when shaping succeeds |
| Handler.Interpret | index.py:125-148 | an answer dict with `error` is passed on as the upstream error, without any content being read; without `error`, a failed content lookup is raised, non-string content raises, and string content gives exactly the parse and shaping of its cleaned text; an answer that is not a dict raises TypeError |
| Handler.Respond | index.py:119-158 | a provider call or decoding that raises gives a 500; otherwise the response is the interpretation of the answer, and every error it gives is a 500 that is neither "no images" nor a missing key |
| Handler.Handle | index.py:36-158 | a missing or empty API key gives a 500 before anything else is looked at; with a key, the answer is 400 exactly when the decoded body is falsy or the membership test for "images" answers false, and any other refusal of the body (a body that could not be decoded, a membership test or subscript that raises) is a 500; every other error is a 500; every analysis returned holds the fixed confidence |
| Handler.NoImagesKeyRefused | index.py:45-48 | a dict body without an `images` key gets a 400 |
| Handler.ListBodyWithoutImagesRefused | index.py:45-48 | a non-empty list body without the string "images" fails the membership test and gets a 400 |
| Handler.StringBodyMentioningImages | index.py:45-50 | a string body that contains "images" passes the `in` test and then raises on the subscript, so it gets a 500, not a 400 |
| Handler.EmptyImageListAccepted | index.py:45-96 | `images: []` is not refused: the provider is called with only the text block, announcing zero images |
| Handler.FailureBeforeCallIgnoresProvider | index.py:36-123 | a request that fails before the network call gets an error that does not depend on the provider |
| Handler.ImageFailureFailsRequest | index.py:55-158 | an image that fails to encode fails the whole request with a 500; the error is that of the first such image, and no partial result is returned |
| Handler.UpstreamErrorPassedOn | index.py:127-130 | an answer carrying `error` becomes a 500 with that value, whatever the parser would do |
| Handler.ValidRequestIsPosted | index.py:119-125 | a validated request with encodable images is posted as prepared, and the answer decides the response |
| Handler.OneObjectShaped | index.py:143-148 | a parsed one-dict list becomes that dict with the fixed confidence |
| Handler.SingleFencedAnalysis | index.py:36-153 | one image, a key, and an answer of one object in a "```json" fence: the response is that object with the fixed confidence, alone in the list |

## Left out

- Image decoding, colour-mode conversion, `thumbnail` resampling, `paste` and
  JPEG encoding (index.py:8-31) are done by the imaging library. `encode_image`
  is the parameter `encode` of `Handler.Handle`. The white fill and the JPEG
  quality 85 belong to that step and are left out with it. The canvas size and
  the offset arithmetic are modelled.
- Canvas.PasteOffset: the 1..512 bounds on the thumbnail size are a
  precondition. The thumbnail computation that guarantees them is inside the
  imaging library.
- base64 encoding and decoding, `json.loads`, and `response.json()` are
  foreign. `json.loads` is the parameter `parse`. The provider call together
  with decoding its answer is the parameter `post`.
- The `requests.post` call, its headers, the bearer token and the endpoint URL
  are left out, because they are I/O. The request value keeps the model name,
  the user message and the token budget.
- The system prompt and the instruction wording are fixed texts with no
  behaviour. The instruction block keeps only the image count it announces.
- The environment lookup is the `apiKey` parameter. `req.json` is the `body`
  parameter, which may carry the exception raised while decoding.
- The value 0.9 is the opaque constant `Shaping.FixedConfidence`. No float
  semantics are modelled, and a number's truthiness is read from its digits.
- Exception messages (`str(e)`) are left out. Errors are kept as their Python
  kind (TypeError, KeyError, IndexError, AttributeError), or as a foreign error
  with its message.
- Handler.ParserInput: for non-string content it states only that a failure is
  raised, not which exception kind the body computes.
- JsonValue.Get / JsonValue.Put: on a member sequence that repeats a key (which
  `json.loads` never builds), they act on the first occurrence.
