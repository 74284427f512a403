/**
 * The serverless entry point `main` (index.py lines 33-158) as a pure function of
 * the environment, the request body and the outcomes of the calls it makes.
 * Every outcome is one response: the analyses (status 200) or an error carrying
 * a status and its cause.
 */
module Handler {
  import opened Wrappers
  import opened PyStrings
  import opened Fences
  import opened JsonValue
  import opened Shaping
  import opened Payload

  /** Why a request failed. */
  datatype Cause =
    | MissingApiKey          // lines 37-40
    | NoImages               // lines 45-48
    | Upstream(error: Json)  // lines 127-130: the provider's `error` value, passed on
    | Raised(e: Exception)   // lines 155-158: anything raised inside the `try`

  datatype Response =
    | Analyses(items: seq<Json>)
    | Error(status: nat, cause: Cause)

  /**
   * Lines 44-50: `data = req.json`, then `data['images']` unless the body is falsy
   * or `'images' not in data`. Only a dict gets through: a list or string body that
   * passes the membership test (it holds the element or substring "images")
   * raises on the subscript instead of being refused.
   */
  function ImagesField(body: Result<Json, Exception>): (r: Result<Json, Cause>)
    ensures r.Success? ==> body.Success? && body.value.Obj? && Get(body.value.members, "images") == Some(r.value)
    ensures body.Success? && body.value.Obj? ==>
              (r.Success? <==> Get(body.value.members, "images").Some?) && (r.Failure? ==> r.error == NoImages)
    ensures r == Failure(NoImages) <==>
              body.Success? && (!Truthy(body.value) || PyIn("images", body.value) == Success(false))
    ensures body.Failure? ==> r == Failure(Raised(body.error))
    ensures r.Failure? && r.error != NoImages ==> r.error.Raised?
  {
    match body
    case Failure(e) => Failure(Raised(e))
    case Success(data) =>
      if !Truthy(data) then Failure(NoImages)
      else
        match PyIn("images", data)
        case Failure(e) => Failure(Raised(e))
        case Success(found) =>
          if !found then Failure(NoImages)
          else
            match Item(data, "images")
            case Failure(e) => Failure(Raised(e))
            case Success(images) => Success(images)
  }

  /**
   * `content` is what `reply['choices'][0]['message']['content']` can yield: the
   * reply is a dict whose `choices` is a non-empty list, whose first choice is a
   * dict with a dict `message`, which holds `content`.
   */
  ghost predicate ContentAt(reply: Json, content: Json) {
    && reply.Obj?
    && var choices := Get(reply.members, "choices");
    && choices.Some? && choices.value.Arr? && |choices.value.items| > 0
    && var choice := choices.value.items[0];
    && choice.Obj?
    && var message := Get(choice.members, "message");
    && message.Some? && message.value.Obj?
    && Get(message.value.members, "content") == Some(content)
  }

  /**
   * Line 133: `response_data['choices'][0]['message']['content']`. It yields the
   * content exactly when the reply has that shape; a reply that is not a dict
   * raises TypeError and a dict without `choices` raises KeyError.
   */
  function ReplyText(reply: Json): (r: Result<Json, Exception>)
    ensures r.Success? ==> ContentAt(reply, r.value)
    ensures forall content :: ContentAt(reply, content) ==> r == Success(content)
    ensures !reply.Obj? ==> r == Failure(TypeError)
    ensures reply.Obj? && Get(reply.members, "choices").None? ==> r == Failure(KeyError)
  {
    var choices :- Item(reply, "choices");
    var choice :- First(choices);
    var message :- Item(choice, "message");
    Item(message, "content")
  }

  /**
   * Lines 136-142 up to `json.loads`: the text handed to the parser. A string is
   * cleaned of its fence; for any other value the membership tests, `split` or
   * `json.loads` itself raises.
   */
  function ParserInput(content: Json): (r: Result<string, Exception>)
    ensures r.Success? <==> content.Str?
    ensures content.Str? ==> r.value == CleanReply(content.s, IsPySpace)
  {
    if content.Str? then Success(CleanReply(content.s, IsPySpace))
    else
      match PyIn(JsonFence, content)
      case Failure(e) => Failure(e)
      case Success(tagged) =>
        if tagged then Failure(AttributeError)
        else
          match PyIn(Fence, content)
          case Failure(e) => Failure(e)
          case Success(fenced) => if fenced then Failure(AttributeError) else Failure(TypeError)
  }

  /** Lines 142-148: `json.loads` (given as `parse`) and the shaping of its result. */
  function ParseAndShape(text: string, parse: string -> Result<Json, Exception>): (r: Result<seq<Json>, Cause>)
    ensures parse(text).Failure? ==> r == Failure(Raised(parse(text).error))
    ensures r.Success? <==> parse(text).Success? && ShapeAnalyses(parse(text).value).Success?
    ensures r.Success? ==> r.value == ShapeAnalyses(parse(text).value).value
    ensures r.Success? ==>
              && |r.value| == |AsList(parse(text).value)|
              && forall i :: 0 <= i < |r.value| ==> Stamped(AsList(parse(text).value)[i], r.value[i])
    ensures r.Success? ==> forall i :: 0 <= i < |r.value| ==>
              r.value[i].Obj? && Get(r.value[i].members, ConfidenceKey) == Some(FixedConfidence)
  {
    match parse(text)
    case Failure(e) => Failure(Raised(e))
    case Success(parsed) =>
      match ShapeAnalyses(parsed)
      case Failure(e) => Failure(Raised(e))
      case Success(items) => Success(items)
  }

  /**
   * Lines 125-148 on the provider's decoded reply: an `error` in it is passed on
   * without reading any content; otherwise the answer text is cleaned, parsed and
   * shaped.
   */
  function Interpret(reply: Json, parse: string -> Result<Json, Exception>): (r: Result<seq<Json>, Cause>)
    ensures reply.Obj? && Get(reply.members, "error").Some? ==> r == Failure(Upstream(Get(reply.members, "error").value))
    ensures !reply.Obj? ==> r == Failure(Raised(TypeError))
    ensures PyIn("error", reply) == Success(false) && ReplyText(reply).Failure? ==>
              r == Failure(Raised(ReplyText(reply).error))
    ensures PyIn("error", reply) == Success(false) && ReplyText(reply).Success? && !ReplyText(reply).value.Str? ==>
              r.Failure? && r.error.Raised?
    ensures PyIn("error", reply) == Success(false) && ReplyText(reply).Success? && ReplyText(reply).value.Str? ==>
              r == ParseAndShape(CleanReply(ReplyText(reply).value.s, IsPySpace), parse)
    ensures r.Success? ==> forall i :: 0 <= i < |r.value| ==>
              r.value[i].Obj? && Get(r.value[i].members, ConfidenceKey) == Some(FixedConfidence)
  {
    match PyIn("error", reply)
    case Failure(e) => Failure(Raised(e))
    case Success(hasError) =>
      if hasError then
        match Item(reply, "error")
        case Failure(e) => Failure(Raised(e))
        case Success(err) => Failure(Upstream(err))
      else
        match ReplyText(reply)
        case Failure(e) => Failure(Raised(e))
        case Success(content) =>
          match ParserInput(content)
          case Failure(e) => Failure(Raised(e))
          case Success(text) => ParseAndShape(text, parse)
  }

  /**
   * Lines 119-158 once the request is built: what the provider's answer turns into.
   * A call or decoding that raises is a 500; otherwise the answer is interpreted,
   * and nothing here answers 400 or reports a missing key.
   */
  function Respond(reply: Result<Json, Exception>, parse: string -> Result<Json, Exception>): (r: Response)
    ensures reply.Failure? ==> r == Error(500, Raised(reply.error))
    ensures reply.Success? ==>
              (r.Analyses? <==> Interpret(reply.value, parse).Success?)
              && (r.Analyses? ==> r.items == Interpret(reply.value, parse).value)
              && (r.Error? ==> r.cause == Interpret(reply.value, parse).error)
    ensures r.Error? ==> r.status == 500 && r.cause != NoImages && r.cause != MissingApiKey
  {
    match reply
    case Failure(e) => Error(500, Raised(e))
    case Success(data) =>
      match Interpret(data, parse)
      case Failure(c) => Error(500, c)
      case Success(items) => Analyses(items)
  }

  /**
   * `main`. `apiKey` is the environment lookup, `body` the decoded request body,
   * `encode` the image normalisation, `post` the call to the provider together with
   * decoding its answer, and `parse` `json.loads`.
   * The key is checked before anything else; 400 is reserved for a request without
   * images, every other failure is a 500; each analysis returned carries the fixed
   * confidence.
   */
  function Handle(apiKey: Option<string>, body: Result<Json, Exception>,
                  encode: Json -> Result<string, Exception>,
                  post: Request -> Result<Json, Exception>,
                  parse: string -> Result<Json, Exception>): (r: Response)
    ensures apiKey.None? || apiKey.value == "" ==> r == Error(500, MissingApiKey)
    ensures r.Error? ==> (r.status == 400 || r.status == 500) && (r.status == 400 <==> r.cause == NoImages)
    ensures r == Error(400, NoImages) <==>
              apiKey.Some? && apiKey.value != "" && body.Success?
              && (!Truthy(body.value) || PyIn("images", body.value) == Success(false))
    ensures apiKey.Some? && apiKey.value != "" && ImagesField(body).Failure? ==>
              r == Error(if ImagesField(body).error == NoImages then 400 else 500, ImagesField(body).error)
    ensures r.Analyses? ==> forall i :: 0 <= i < |r.items| ==>
              r.items[i].Obj? && Get(r.items[i].members, ConfidenceKey) == Some(FixedConfidence)
  {
    if apiKey.None? || apiKey.value == "" then Error(500, MissingApiKey)
    else
      match ImagesField(body)
      case Failure(c) => Error(if c == NoImages then 400 else 500, c)
      case Success(images) =>
        match PrepareRequest(images, encode)
        case Failure(e) => Error(500, Raised(e))
        case Success(request) => Respond(post(request), parse)
  }

  /** A dict body without an `images` key is refused with 400, whatever else it holds. */
  lemma NoImagesKeyRefused(key: string, members: seq<(string, Json)>,
                           encode: Json -> Result<string, Exception>,
                           post: Request -> Result<Json, Exception>,
                           parse: string -> Result<Json, Exception>)
    requires key != "" && "images" !in Keys(members)
    ensures Handle(Some(key), Success(Obj(members)), encode, post, parse) == Error(400, NoImages)
  {
  }

  /**
   * A non-empty list body that does not hold the string "images" fails line 45's
   * membership test and is refused with 400, like a dict without the key.
   */
  lemma ListBodyWithoutImagesRefused(key: string, items: seq<Json>,
                                     encode: Json -> Result<string, Exception>,
                                     post: Request -> Result<Json, Exception>,
                                     parse: string -> Result<Json, Exception>)
    requires key != "" && |items| > 0 && Str("images") !in items
    ensures Handle(Some(key), Success(Arr(items)), encode, post, parse) == Error(400, NoImages)
  {
  }

  /**
   * A string body that mentions "images" passes the membership test and then fails
   * on the subscript: a 500, not the 400 a missing field gets.
   */
  lemma StringBodyMentioningImages(key: string, text: string,
                                   encode: Json -> Result<string, Exception>,
                                   post: Request -> Result<Json, Exception>,
                                   parse: string -> Result<Json, Exception>)
    requires key != "" && Contains(text, "images")
    ensures Handle(Some(key), Success(Str(text)), encode, post, parse) == Error(500, Raised(TypeError))
  {
    var i: nat :| i <= |text| && OccursAt(text, "images", i);
    assert |text| > 0;
  }

  /**
   * An empty `images` list is not refused: the provider is called with a user
   * message holding only the text block, announcing zero images.
   */
  lemma EmptyImageListAccepted(key: string, members: seq<(string, Json)>,
                               encode: Json -> Result<string, Exception>,
                               post: Request -> Result<Json, Exception>,
                               parse: string -> Result<Json, Exception>)
    requires key != "" && Get(members, "images") == Some(Arr([]))
    ensures Handle(Some(key), Success(Obj(members)), encode, post, parse)
            == Respond(post(Request(ModelName, [Instruction(0)], MaxTokens)), parse)
  {
    assert BuildContent([]) == [Instruction(0)];
  }

  /**
   * A request that fails before the network call (missing key, no images, an image
   * that does not normalise) gets the same response whatever the provider would
   * have answered: the provider is not consulted.
   */
  lemma FailureBeforeCallIgnoresProvider(apiKey: Option<string>, body: Result<Json, Exception>,
                                         encode: Json -> Result<string, Exception>,
                                         post1: Request -> Result<Json, Exception>,
                                         post2: Request -> Result<Json, Exception>,
                                         parse: string -> Result<Json, Exception>)
    requires || apiKey.None? || apiKey.value == ""
             || ImagesField(body).Failure?
             || PrepareRequest(ImagesField(body).value, encode).Failure?
    ensures Handle(apiKey, body, encode, post1, parse) == Handle(apiKey, body, encode, post2, parse)
    ensures Handle(apiKey, body, encode, post1, parse).Error?
  {
  }

  /**
   * An image that fails to normalise fails the whole request with that image's
   * error, the first such image in input order; no partial result is returned.
   */
  lemma ImageFailureFailsRequest(key: string, body: Result<Json, Exception>,
                                 encode: Json -> Result<string, Exception>,
                                 post: Request -> Result<Json, Exception>,
                                 parse: string -> Result<Json, Exception>, k: nat)
    requires key != "" && ImagesField(body).Success?
    requires k < |AsList(ImagesField(body).value)|
    requires encode(AsList(ImagesField(body).value)[k]).Failure?
    requires forall j :: 0 <= j < k ==> encode(AsList(ImagesField(body).value)[j]).Success?
    ensures Handle(Some(key), body, encode, post, parse)
            == Error(500, Raised(encode(AsList(ImagesField(body).value)[k]).error))
  {
    var images := AsList(ImagesField(body).value);
    var r := ProcessImages(images, encode);
    assert r.Failure?;
    var i :| 0 <= i < |images| && encode(images[i]) == Failure(r.error)
             && forall j :: 0 <= j < i ==> encode(images[j]).Success?;
    assert i == k;
  }

  /**
   * A provider answer that carries `error` is passed on as a 500 with that value;
   * the answer's content is neither read nor parsed.
   */
  lemma UpstreamErrorPassedOn(members: seq<(string, Json)>, parse: string -> Result<Json, Exception>)
    requires "error" in Keys(members)
    ensures Respond(Success(Obj(members)), parse) == Error(500, Upstream(Get(members, "error").value))
  {
  }

  /** A chat-completions answer whose first choice's message has content `text`. */
  function ReplyWith(text: string): Json
  {
    Obj([("choices", Arr([Obj([("message", Obj([("content", Str(text))]))])]))])
  }

  /** The provider's text handed to the parser, for an answer shaped by `ReplyWith`. */
  lemma ReplyWithText(text: string, parse: string -> Result<Json, Exception>)
    ensures ReplyText(ReplyWith(text)) == Success(Str(text))
    ensures Interpret(ReplyWith(text), parse) == ParseAndShape(CleanReply(text, IsPySpace), parse)
  {
    assert Keys(ReplyWith(text).members) == ["choices"];
  }

  /** A one-image dict body yields the request carrying that image's normalised form. */
  lemma OneImageRequest(image: Json, encoded: string, encode: Json -> Result<string, Exception>)
    requires encode(image) == Success(encoded)
    ensures ImagesField(Success(Obj([("images", Arr([image]))]))) == Success(Arr([image]))
    ensures PrepareRequest(Arr([image]), encode)
            == Success(Request(ModelName, [Instruction(1), ImageUrl(DataUrlPrefix + encoded)], MaxTokens))
  {
    assert Keys([("images", Arr([image]))]) == ["images"];
    assert AsList(Arr([image])) == [image];
    assert [image][1..] == [];
    assert ProcessImages([], encode) == Success([]);
    assert [encoded] + [] == [encoded];
    assert ProcessImages([image], encode) == Success([encoded]);
    assert ImageBlocks([encoded]) == [ImageUrl(DataUrlPrefix + encoded)];
    assert BuildContent([encoded]) == [Instruction(1), ImageUrl(DataUrlPrefix + encoded)];
  }

  /** A reply that is just a "```json" fence around a body cleans to the stripped body. */
  lemma CleanSimpleFence(body: string)
    requires !Contains(body, Fence) && (|body| == 0 || body[|body| - 1] != '`')
    ensures CleanReply(JsonFence + body + Fence, IsPySpace) == Strip(body, IsPySpace)
  {
    var reply := "" + JsonFence + body + Fence + "";
    assert reply == JsonFence + body + Fence;
    assert !Contains("", JsonFence);
    FencedJsonReply("", body, "", IsPySpace);
  }

  /** A parsed list holding one dict becomes that dict with the fixed confidence. */
  lemma OneObjectShaped(item: seq<(string, Json)>)
    ensures ShapeAnalyses(Arr([Obj(item)])) == Success([Obj(Put(item, ConfidenceKey, FixedConfidence))])
  {
    assert AsList(Arr([Obj(item)])) == [Obj(item)];
    var stamped := StampConfidence([Obj(item)]).value;
    assert |stamped| == 1 && stamped[0] == Obj(Put(item, ConfidenceKey, FixedConfidence));
    assert stamped == [Obj(Put(item, ConfidenceKey, FixedConfidence))];
  }

  /** A valid request is posted as prepared, and the answer decides the response. */
  lemma ValidRequestIsPosted(key: string, body: Result<Json, Exception>,
                             encode: Json -> Result<string, Exception>,
                             post: Request -> Result<Json, Exception>,
                             parse: string -> Result<Json, Exception>,
                             images: Json, request: Request)
    requires key != "" && ImagesField(body) == Success(images)
    requires PrepareRequest(images, encode) == Success(request)
    ensures Handle(Some(key), body, encode, post, parse) == Respond(post(request), parse)
  {
  }

  /**
   * One image, a key, and a provider that answers with one object in a "```json"
   * fence: the response is that object with the fixed confidence added, alone in
   * the analyses list.
   */
  lemma SingleFencedAnalysis(key: string, image: Json, encoded: string, body: string,
                             item: seq<(string, Json)>,
                             encode: Json -> Result<string, Exception>,
                             post: Request -> Result<Json, Exception>,
                             parse: string -> Result<Json, Exception>)
    requires key != ""
    requires !Contains(body, Fence) && (|body| == 0 || body[|body| - 1] != '`')
    ensures encode(image) == Success(encoded)
            && post(Request(ModelName, [Instruction(1), ImageUrl(DataUrlPrefix + encoded)], MaxTokens))
               == Success(ReplyWith(JsonFence + body + Fence))
            && parse(Strip(body, IsPySpace)) == Success(Arr([Obj(item)]))
            ==> Handle(Some(key), Success(Obj([("images", Arr([image]))])), encode, post, parse)
                == Analyses([Obj(Put(item, ConfidenceKey, FixedConfidence))])
  {
    if encode(image) == Success(encoded)
       && post(Request(ModelName, [Instruction(1), ImageUrl(DataUrlPrefix + encoded)], MaxTokens))
          == Success(ReplyWith(JsonFence + body + Fence))
       && parse(Strip(body, IsPySpace)) == Success(Arr([Obj(item)]))
    {
      var text := JsonFence + body + Fence;
      var head := Obj(Put(item, ConfidenceKey, FixedConfidence));
      CleanSimpleFence(body);
      OneImageRequest(image, encoded, encode);
      var request := Request(ModelName, [Instruction(1), ImageUrl(DataUrlPrefix + encoded)], MaxTokens);
      ValidRequestIsPosted(key, Success(Obj([("images", Arr([image]))])), encode, post, parse, Arr([image]), request);
      ReplyWithText(text, parse);
      OneObjectShaped(item);
      assert ParseAndShape(CleanReply(text, IsPySpace), parse) == Success([head]);
    }
  }
}
