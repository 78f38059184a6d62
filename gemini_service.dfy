/** `GeminiService.generateWallpaper` (services/geminiService.ts): the request
    it builds and the scan of the reply for the first inline image. The SDK
    call itself is foreign; its reply is a parameter. */
module GeminiService {
  import opened Types

  const ModelName: string := "gemini-2.5-flash-image"
  const DataUriPrefix: string := "data:image/png;base64,"

  /** The indentation the instruction's template literal carries on its
      second and third lines. */
  const Indent: string := "                     "
  const InstructionHead: string := "Generate a high-quality 3D wallpaper with the following description: "
  const InstructionTail: string :=
    ". \n" + Indent + "Focus on depth, parallax effect, and high-fidelity rendering. \n"
    + Indent + "The style should be immersive and cinematic."

  /** The part of the reply that matters here: `inlineData.data` is an
      optional base64 string. */
  datatype InlineData = InlineData(data: Option<string>, mimeType: Option<string>)
  datatype Part = Part(text: Option<string>, inlineData: Option<InlineData>)
  datatype Content = Content(parts: Option<seq<Part>>)
  datatype Candidate = Candidate(content: Option<Content>)
  datatype Response = Response(candidates: Option<seq<Candidate>>)

  /** What the awaited SDK call produces: a response, or a thrown error. */
  datatype Reply = Replied(response: Response) | Threw(message: string)

  /** What `generateWallpaper` throws: the SDK's own error, rethrown by the
      catch block unchanged, or the error for a reply without image data. */
  datatype ServiceError = ApiFailure(message: string) | NoImageData

  /** The single `contents` part and the image configuration sent to the SDK. */
  datatype ImageRequest = ImageRequest(model: string, text: string, aspectRatio: string)

  /** The instruction text sent to the model, with the user's prompt
      embedded verbatim between a fixed head and a fixed tail. */
  function Instruction(prompt: string): (r: string)
    ensures |r| == |InstructionHead| + |prompt| + |InstructionTail|
    ensures InstructionHead <= r
    ensures r[|InstructionHead|..|InstructionHead| + |prompt|] == prompt
    ensures r[|InstructionHead| + |prompt|..] == InstructionTail
  {
    InstructionHead + prompt + InstructionTail
  }

  /** Different prompts give different instructions: the prompt is never
      lost or merged into the template. */
  lemma InstructionInjective(p: string, q: string)
    requires Instruction(p) == Instruction(q)
    ensures p == q
  {
    assert |p| == |q|;
  }

  /** `response.candidates?.[0]?.content?.parts || []`: a missing candidate
      list, an empty one, a missing content or missing parts give no parts. */
  function ResponseParts(response: Response): (r: seq<Part>)
    ensures response.candidates.None? || response.candidates == Some([]) ==> r == []
    ensures r != [] ==>
      && response.candidates.Some? && response.candidates.value != []
      && response.candidates.value[0].content.Some?
      && response.candidates.value[0].content.value.parts == Some(r)
    ensures (&& response.candidates.Some? && response.candidates.value != []
             && response.candidates.value[0].content.Some?
             && response.candidates.value[0].content.value.parts.Some?)
            ==> r == response.candidates.value[0].content.value.parts.value
  {
    match response.candidates
    case None => []
    case Some(cs) =>
      if cs == [] then []
      else match cs[0].content
        case None => []
        case Some(c) => match c.parts
          case None => []
          case Some(ps) => ps
  }

  /** The index of the first part carrying `inlineData`, if any. */
  function FirstInline(parts: seq<Part>): (r: Option<nat>)
    ensures r.Some? ==> r.value < |parts| && parts[r.value].inlineData.Some?
    ensures r.Some? ==> forall j :: 0 <= j < r.value ==> parts[j].inlineData.None?
    ensures r.None? <==> forall j :: 0 <= j < |parts| ==> parts[j].inlineData.None?
  {
    if parts == [] then None
    else if parts[0].inlineData.Some? then Some(0)
    else match FirstInline(parts[1..])
      case None => None
      case Some(k) => Some(k + 1)
  }

  /** Parts after the first one with inline data never change which part is
      taken. */
  lemma {:induction false} FirstInlineIgnoresLaterParts(parts: seq<Part>, more: seq<Part>)
    requires FirstInline(parts).Some?
    ensures FirstInline(parts + more) == FirstInline(parts)
  {
    if parts[0].inlineData.None? {
      assert (parts + more)[1..] == parts[1..] + more;
      FirstInlineIgnoresLaterParts(parts[1..], more);
    }
  }

  /** Some part carries inline data. */
  predicate HasInline(parts: seq<Part>) {
    exists j :: 0 <= j < |parts| && parts[j].inlineData.Some?
  }

  /** How a template literal renders an optional string: an absent value
      prints as "undefined". */
  function Interpolate(s: Option<string>): string {
    match s
    case None => "undefined"
    case Some(v) => v
  }

  /** The data URI built from an inline-data part. */
  function DataUri(d: InlineData): (r: string)
    ensures DataUriPrefix <= r && r[|DataUriPrefix|..] == Interpolate(d.data)
  {
    DataUriPrefix + Interpolate(d.data)
  }

  /** What `generateWallpaper` returns or throws for a given SDK reply. */
  function Outcome(reply: Reply): (r: Result<string, ServiceError>)
    ensures reply.Threw? ==> r == Err(ApiFailure(reply.message))
    ensures r.Ok? <==> reply.Replied? && HasInline(ResponseParts(reply.response))
    ensures r.Ok? ==> r.value != "" && DataUriPrefix <= r.value
    ensures r.Ok? ==>
      var ps := ResponseParts(reply.response);
      exists k :: 0 <= k < |ps| && ps[k].inlineData.Some?
        && (forall j :: 0 <= j < k ==> ps[j].inlineData.None?)
        && r.value == DataUriPrefix + Interpolate(ps[k].inlineData.value.data)
    ensures r.Err? && reply.Replied? ==> r.error == NoImageData
  {
    match reply
    case Threw(m) => Err(ApiFailure(m))
    case Replied(response) =>
      var parts := ResponseParts(response);
      match FirstInline(parts)
      case None => Err(NoImageData)
      case Some(k) => Ok(DataUri(parts[k].inlineData.value))
  }

  /** `generateWallpaper(prompt, aspectRatio = '16:9')`: builds the request,
      takes the SDK's `reply`, and scans the parts of the first candidate for
      the first one with inline data, stopping there. Throws (returns `Err`)
      when the SDK throws or when no part carries inline data. */
  method GenerateWallpaper(prompt: string, reply: Reply, aspectRatio: AspectRatio := Landscape)
    returns (request: ImageRequest, r: Result<string, ServiceError>)
    ensures request == ImageRequest(ModelName, Instruction(prompt), RatioText(aspectRatio))
    ensures r == Outcome(reply)
  {
    request := ImageRequest(ModelName, Instruction(prompt), RatioText(aspectRatio));
    if reply.Threw? {
      r := Err(ApiFailure(reply.message));
      return;
    }
    var parts := ResponseParts(reply.response);
    var imageUrl := "";
    var i := 0;
    while i < |parts|
      invariant 0 <= i <= |parts|
      invariant imageUrl == ""
      invariant forall j :: 0 <= j < i ==> parts[j].inlineData.None?
    {
      if parts[i].inlineData.Some? {
        imageUrl := DataUri(parts[i].inlineData.value);
        assert FirstInline(parts) == Some(i);
        break;
      }
      i := i + 1;
    }
    if imageUrl == "" {
      r := Err(NoImageData);
      return;
    }
    r := Ok(imageUrl);
  }
}
