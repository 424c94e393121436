/** OneBot v11 message segments and forward nodes, and the outcome of sending a group
    forward message through the aiocqhttp client.

    A segment is the dictionary `{"type": <tag>, "data": {...}}`; its data is one of
    the three shapes built here (a forward node, a text, a file reference). `Decode`
    is how a OneBot implementation reads a segment back: by its type tag, looking
    for the data that tag calls for. The builders are proved to produce segments
    that decode to exactly what they were given. `os.path.abspath` is a parameter. */
module CqhttpForwarder {
  import opened Wrappers

  datatype Segment = Segment(kind: string, data: SegmentData)

  datatype SegmentData =
    | NodeData(userId: string, nickname: string, content: seq<Segment>)
    | TextData(text: string)
    | FileData(file: string)

  /** A segment as its receiver understands it. */
  datatype Content =
    | Node(userId: string, nickname: string, content: seq<Segment>)
    | Text(text: string)
    | ImageFile(uri: string)
    | Voice(uri: string)

  /** Reads a segment by its type tag; `None` for an unknown tag or data of the wrong
      shape for the tag. */
  function Decode(s: Segment): Option<Content> {
    match s.data
    case NodeData(u, n, c) => if s.kind == "node" then Some(Node(u, n, c)) else None
    case TextData(t) => if s.kind == "text" then Some(Text(t)) else None
    case FileData(f) =>
      if s.kind == "image" then Some(ImageFile(f))
      else if s.kind == "record" then Some(Voice(f))
      else None
  }

  const FileScheme: string := "file://"

  /** `f"file://{absolute_path}"`. */
  function FileUri(absolutePath: string): string {
    FileScheme + absolutePath
  }

  /** The local path a `file://` URI names, or `None` for another scheme. */
  function UriPath(uri: string): (p: Option<string>)
    ensures p.Some? ==> uri == FileScheme + p.value
  {
    if |uri| >= |FileScheme| && uri[..|FileScheme|] == FileScheme then Some(uri[|FileScheme|..]) else None
  }

  /** The path a file URI is built from is the path it names. */
  lemma FileUriRoundTrip(absolutePath: string)
    ensures UriPath(FileUri(absolutePath)) == Some(absolutePath)
  {
    var uri := FileUri(absolutePath);
    assert uri[..|FileScheme|] == FileScheme;
    assert uri[|FileScheme|..] == absolutePath;
  }

  /** `create_forward_node`: a node carrying the user id, nickname and content as
      given. */
  function CreateForwardNode(userId: string, nickname: string, contentSegments: seq<Segment>): (n: Segment)
    ensures Decode(n) == Some(Node(userId, nickname, contentSegments))
  {
    Segment("node", NodeData(userId, nickname, contentSegments))
  }

  /** `text_to_segment`: a text segment carrying the text as given. */
  function TextToSegment(text: string): (s: Segment)
    ensures Decode(s) == Some(Text(text))
  {
    Segment("text", TextData(text))
  }

  /** `local_image_to_segment`: an image segment whose file is the `file://` URI of the
      absolute path. */
  function LocalImageToSegment(abspath: string -> string, filePath: string): (s: Segment)
    ensures Decode(s).Some? && Decode(s).value.ImageFile?
    ensures UriPath(Decode(s).value.uri) == Some(abspath(filePath))
  {
    FileUriRoundTrip(abspath(filePath));
    Segment("image", FileData(FileUri(abspath(filePath))))
  }

  /** `local_audio_to_segment`: a voice (`record`) segment whose file is the `file://`
      URI of the absolute path. */
  function LocalAudioToSegment(abspath: string -> string, filePath: string): (s: Segment)
    ensures Decode(s).Some? && Decode(s).value.Voice?
    ensures UriPath(Decode(s).value.uri) == Some(abspath(filePath))
  {
    FileUriRoundTrip(abspath(filePath));
    Segment("record", FileData(FileUri(abspath(filePath))))
  }

  /** For the same path, the voice segment differs from the image segment only in its
      type tag. */
  lemma AudioIsImageWithRecordTag(abspath: string -> string, filePath: string)
    ensures LocalAudioToSegment(abspath, filePath) == LocalImageToSegment(abspath, filePath).(kind := "record")
    ensures LocalAudioToSegment(abspath, filePath) != LocalImageToSegment(abspath, filePath)
  {
  }

  // ---------------------------------------------------------------------------
  // send_group_forward_message_by_api

  /** The `bot_client` argument: absent (or falsy), an object without an `api`
      attribute, or a usable client. */
  datatype BotClient = NoClient | ClientWithoutApi | ClientWithApi

  /** One call of the OneBot action API. */
  datatype ApiCall = ApiCall(action: string, groupId: int, messages: seq<Segment>)

  /** Whether the function reported success, and the API calls it made. */
  datatype SendReport = SendReport(ok: bool, calls: seq<ApiCall>)

  const SendGroupForwardAction: string := "send_group_forward_msg"

  /** `send_group_forward_message_by_api`. `callRaises` says whether the client's
      `call_action` raises. */
  function SendGroupForwardMessageByApi(client: BotClient, groupId: int, nodes: seq<Segment>, callRaises: bool): (r: SendReport)
    ensures client != ClientWithApi ==> !r.ok && r.calls == []
    ensures client == ClientWithApi ==> r.calls == [ApiCall(SendGroupForwardAction, groupId, nodes)]
    ensures r.ok <==> client == ClientWithApi && !callRaises
  {
    match client
    case NoClient => SendReport(false, [])
    case ClientWithoutApi => SendReport(false, [])
    case ClientWithApi =>
      var call := ApiCall(SendGroupForwardAction, groupId, nodes);
      if callRaises then SendReport(false, [call]) else SendReport(true, [call])
  }
}
