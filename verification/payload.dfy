/**
 * The request sent to the vision model (index.py lines 50-55 and 81-117): the
 * `images` value as a list, each image normalised in order, and a user message of
 * one text block followed by one image block per normalised image.
 */
module Payload {
  import opened Wrappers
  import opened PyStrings
  import opened JsonValue

  const DataUrlPrefix: string := "data:image/jpeg;base64,"
  const ModelName: string := "gpt-4-vision-preview"
  const MaxTokens: nat := 2000

  /**
   * A block of the user message. The text block's wording is fixed apart from the
   * number of images it announces, which is all that is kept of it.
   */
  datatype Block = Instruction(imageCount: nat) | ImageUrl(url: string)

  /**
   * The JSON body posted to the chat-completions endpoint: the model name, the
   * user message's blocks and the token budget. The system message is a fixed
   * text and is left implicit.
   */
  datatype Request = Request(model: string, content: seq<Block>, maxTokens: nat)

  /**
   * Line 55: `[encode_image(img) for img in base64_images]`, with `encode_image`
   * given as `encode`. The first image that fails stops the list with its error.
   */
  function ProcessImages(images: seq<Json>, encode: Json -> Result<string, Exception>): (r: Result<seq<string>, Exception>)
    ensures r.Success? <==> forall i :: 0 <= i < |images| ==> encode(images[i]).Success?
    ensures r.Success? ==> |r.value| == |images| && forall i :: 0 <= i < |images| ==> r.value[i] == encode(images[i]).value
    ensures r.Failure? ==> exists i :: 0 <= i < |images| && encode(images[i]) == Failure(r.error)
                                   && forall j :: 0 <= j < i ==> encode(images[j]).Success?
  {
    if |images| == 0 then Success([])
    else match encode(images[0])
      case Failure(e) => Failure(e)
      case Success(first) =>
        match ProcessImages(images[1..], encode)
        case Failure(e) =>
          assert forall j :: 1 <= j < |images| ==> images[j] == images[1..][j - 1];
          Failure(e)
        case Success(rest) =>
          assert forall j :: 1 <= j < |images| ==> images[j] == images[1..][j - 1];
          Success([first] + rest)
  }

  /** Lines 90-96: one `image_url` block per normalised image, in order. */
  function ImageBlocks(processed: seq<string>): (blocks: seq<Block>)
    ensures |blocks| == |processed|
    ensures forall i :: 0 <= i < |processed| ==> blocks[i] == ImageUrl(DataUrlPrefix + processed[i])
  {
    if |processed| == 0 then []
    else [ImageUrl(DataUrlPrefix + processed[0])] + ImageBlocks(processed[1..])
  }

  /** Lines 82-96: the text block announcing the image count, then the image blocks. */
  function BuildContent(processed: seq<string>): seq<Block>
  {
    [Instruction(|processed|)] + ImageBlocks(processed)
  }

  /** The base64 payloads of a run of image blocks, if every block is a JPEG data URL. */
  function Attachments(blocks: seq<Block>): Option<seq<string>>
  {
    if |blocks| == 0 then Some([])
    else if blocks[0].ImageUrl? && |DataUrlPrefix| <= |blocks[0].url|
            && blocks[0].url[..|DataUrlPrefix|] == DataUrlPrefix then
      match Attachments(blocks[1..])
      case None => None
      case Some(rest) => Some([blocks[0].url[|DataUrlPrefix|..]] + rest)
    else None
  }

  /** Reads a user message back: the payloads, if it has the shape `BuildContent` gives. */
  function ReadContent(content: seq<Block>): Option<seq<string>>
  {
    if |content| >= 1 && content[0] == Instruction(|content| - 1) then Attachments(content[1..])
    else None
  }

  /** Reading back image blocks gives the payloads they were built from. */
  lemma {:induction false} AttachmentsOfImageBlocks(processed: seq<string>)
    ensures Attachments(ImageBlocks(processed)) == Some(processed)
  {
    if |processed| > 0 {
      var blocks := ImageBlocks(processed);
      assert blocks[0].url == DataUrlPrefix + processed[0];
      assert blocks[0].url[..|DataUrlPrefix|] == DataUrlPrefix;
      assert blocks[0].url[|DataUrlPrefix|..] == processed[0];
      assert blocks[1..] == ImageBlocks(processed[1..]);
      AttachmentsOfImageBlocks(processed[1..]);
      assert processed == [processed[0]] + processed[1..];
    }
  }

  /** Image blocks are the only blocks whose payloads read back as `processed`. */
  lemma {:induction false} ImageBlocksOfAttachments(blocks: seq<Block>, processed: seq<string>)
    requires Attachments(blocks) == Some(processed)
    ensures ImageBlocks(processed) == blocks
    decreases |blocks|
  {
    if |blocks| > 0 {
      var rest := Attachments(blocks[1..]).value;
      ImageBlocksOfAttachments(blocks[1..], rest);
      assert processed == [blocks[0].url[|DataUrlPrefix|..]] + rest;
      assert DataUrlPrefix + blocks[0].url[|DataUrlPrefix|..] == blocks[0].url;
      assert processed[1..] == rest;
      assert blocks == [blocks[0]] + blocks[1..];
    }
  }

  /**
   * The user message is one text block followed by exactly one JPEG data-URL block
   * per normalised image, in order: reading it back gives the images, and only
   * that message reads back as them.
   */
  lemma ContentRoundTrip(processed: seq<string>, content: seq<Block>)
    ensures ReadContent(BuildContent(processed)) == Some(processed)
    ensures ReadContent(content) == Some(processed) ==> BuildContent(processed) == content
  {
    AttachmentsOfImageBlocks(processed);
    assert BuildContent(processed)[1..] == ImageBlocks(processed);
    if ReadContent(content) == Some(processed) {
      ImageBlocksOfAttachments(content[1..], processed);
      assert content == [content[0]] + content[1..];
    }
  }

  /**
   * Lines 50-117 up to the network call: the `images` value as a list, every image
   * normalised, and the request carrying them. It succeeds exactly when every
   * image normalises, and then carries one attachment per image, in order.
   */
  function PrepareRequest(images: Json, encode: Json -> Result<string, Exception>): (r: Result<Request, Exception>)
    ensures r.Success? <==> forall i :: 0 <= i < |AsList(images)| ==> encode(AsList(images)[i]).Success?
    ensures r.Success? ==> r.value.model == ModelName && r.value.maxTokens == MaxTokens
    ensures r.Success? ==>
              && ReadContent(r.value.content).Some?
              && |ReadContent(r.value.content).value| == |AsList(images)|
              && forall i :: 0 <= i < |AsList(images)| ==>
                   ReadContent(r.value.content).value[i] == encode(AsList(images)[i]).value
  {
    match ProcessImages(AsList(images), encode)
    case Failure(e) => Failure(e)
    case Success(processed) =>
      ContentRoundTrip(processed, []);
      Success(Request(ModelName, BuildContent(processed), MaxTokens))
  }
  /**
   * Lines 51-52: a value that is not a list is sent as a one-image list. It needs
   * the same encoding as that list, and when it encodes the request carries
   * exactly one attachment, announced as one image.
   */
  lemma SingleImageWrapped(image: Json, encode: Json -> Result<string, Exception>)
    requires !image.Arr?
    ensures PrepareRequest(image, encode) == PrepareRequest(Arr([image]), encode)
    ensures encode(image).Failure? ==> PrepareRequest(image, encode) == Failure(encode(image).error)
    ensures encode(image).Success? ==>
              PrepareRequest(image, encode)
              == Success(Request(ModelName, [Instruction(1), ImageUrl(DataUrlPrefix + encode(image).value)], MaxTokens))
  {
    assert AsList(image) == [image] == AsList(Arr([image]));
    assert [image][1..] == [];
    assert ProcessImages([], encode) == Success([]);
    if encode(image).Success? {
      var encoded := encode(image).value;
      assert [encoded] + [] == [encoded];
      assert ProcessImages([image], encode) == Success([encoded]);
      assert ImageBlocks([encoded]) == [ImageUrl(DataUrlPrefix + encoded)];
      assert BuildContent([encoded]) == [Instruction(1), ImageUrl(DataUrlPrefix + encoded)];
    }
  }

}
