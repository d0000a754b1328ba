/**
 * AbstractMessageConverterMethodArgumentResolver: reading a method argument
 * from the request body with the first message converter that can read
 * it, and the decision taken when none can.
 */
module MessageConverterResolver {
  import opened Common

  datatype HttpMethod = GET | HEAD | POST | PUT | PATCH | DELETE | OPTIONS | TRACE

  /** SUPPORTED_METHODS: the methods whose unreadable body is an error. */
  const SUPPORTED_METHODS: set<HttpMethod> := {POST, PUT, PATCH}

  type MediaType = string

  const APPLICATION_OCTET_STREAM: MediaType := "application/octet-stream"

  /** A message converter: whether it is generic, and the media types it declares. */
  datatype Converter = Converter(converterId: nat, isGeneric: bool, supportedMediaTypes: seq<MediaType>)

  /** The resolver's state after construction. */
  datatype Resolver = Resolver(messageConverters: seq<Converter>, allSupportedMediaTypes: seq<MediaType>)

  /** An argument object, as far as Optional adaptation looks at it. */
  datatype Obj =
    | CollectionObj(elements: seq<nat>)
    | ArrayObj(items: seq<nat>)
    | PlainObj(objId: nat)
    | OptionalObj(content: Option<Obj>)

  /** Appends the members of `ts` not yet in `acc` (LinkedHashSet.addAll). */
  function AddAllDistinct(acc: seq<MediaType>, ts: seq<MediaType>): (r: seq<MediaType>)
    requires NoDuplicates(acc)
    ensures NoDuplicates(r)
    ensures acc <= r
    ensures forall t :: t in r <==> t in acc || t in ts
    decreases |ts|
  {
    if |ts| == 0 then acc
    else if ts[0] in acc then AddAllDistinct(acc, ts[1..])
    else AddAllDistinct(acc + [ts[0]], ts[1..])
  }

  /** getAllSupportedMediaTypes, before sorting: the union, in first-seen order. */
  function AllSupportedMediaTypes(converters: seq<Converter>): (r: seq<MediaType>)
    ensures NoDuplicates(r)
    ensures forall t :: t in r <==> exists i :: 0 <= i < |converters| && t in converters[i].supportedMediaTypes
    decreases |converters|
  {
    if |converters| == 0 then []
    else
      var init := converters[..|converters| - 1];
      var r := AddAllDistinct(AllSupportedMediaTypes(init), converters[|converters| - 1].supportedMediaTypes);
      assert forall i :: 0 <= i < |init| ==> init[i] == converters[i];
      r
  }

  /** The constructor: an empty converter list is rejected. */
  function NewResolver(converters: seq<Converter>): (r: Result<Resolver>)
    ensures r.Err? <==> |converters| == 0
    ensures r.Err? ==> r.error == IllegalArgument
    ensures r.Ok? ==> r.value.messageConverters == converters
                      && r.value.allSupportedMediaTypes == AllSupportedMediaTypes(converters)
  {
    if |converters| == 0 then Err(IllegalArgument)
    else Ok(Resolver(converters, AllSupportedMediaTypes(converters)))
  }

  /** The Content-Type header: unparseable, absent, or a media type. */
  datatype ContentType = InvalidContentType | NoContentType | ContentTypeOf(mediaType: MediaType)

  /** The input message as the decision logic sees it. */
  datatype InputMessage = InputMessage(
    contentType: ContentType,
    hasBody: bool,
    bodyCheckFails: bool,        // peeking at the body throws an IOException
    httpMethod: Option<HttpMethod>)

  /** What converter.read does: a body (possibly null) or an IOException. */
  datatype ReadOutcome = BodyRead(body: Option<Obj>) | ReadFailed

  /**
   * The collaborators of one read: canRead for generic and plain
   * converters (the plain one is only asked when a target class is
   * known), read, and the body advice.
   */
  datatype Collaborators = Collaborators(
    targetClassKnown: bool,
    canReadGeneric: (Converter, MediaType) -> bool,
    canReadClass: (Converter, MediaType) -> bool,
    read: (Converter, MediaType) -> ReadOutcome,
    afterBodyRead: Option<Obj> -> Option<Obj>,
    handleEmptyBody: Option<Obj>)

  predicate CanRead(cs: Collaborators, c: Converter, ct: MediaType) {
    if c.isGeneric then cs.canReadGeneric(c, ct) else cs.targetClassKnown && cs.canReadClass(c, ct)
  }

  /** The index of the first converter that can read, if any. */
  function FirstReader(converters: seq<Converter>, cs: Collaborators, ct: MediaType): (r: Option<nat>)
    ensures r.Some? ==> r.value < |converters| && CanRead(cs, converters[r.value], ct)
    ensures r.Some? ==> forall j :: 0 <= j < r.value ==> !CanRead(cs, converters[j], ct)
    ensures r.None? ==> forall j :: 0 <= j < |converters| ==> !CanRead(cs, converters[j], ct)
    decreases |converters|
  {
    if |converters| == 0 then None
    else if CanRead(cs, converters[0], ct) then Some(0)
    else
      var r := FirstReader(converters[1..], cs, ct);
      if r.None? then None else Some(r.value + 1)
  }

  /** The content type used for reading: the header's, else application/octet-stream. */
  function EffectiveContentType(ct: ContentType): MediaType
    requires !ct.InvalidContentType?
  {
    if ct.ContentTypeOf? then ct.mediaType else APPLICATION_OCTET_STREAM
  }

  /** The decision when no converter could read the body. */
  function NoConverterDecision(msg: InputMessage): (r: Result<Option<Obj>>)
    ensures r.Ok? ==> r.value.None?
    ensures r.Err? ==> r.error == HttpMediaTypeNotSupported
    ensures r.Ok? <==> msg.httpMethod.None? || msg.httpMethod.value !in SUPPORTED_METHODS
                       || (msg.contentType.NoContentType? && !msg.hasBody)
  {
    if msg.httpMethod.None? || msg.httpMethod.value !in SUPPORTED_METHODS
       || (msg.contentType.NoContentType? && !msg.hasBody)
    then Ok(None)
    else Err(HttpMediaTypeNotSupported)
  }

  /** readWithMessageConverters(HttpInputMessage, parameter, targetType). */
  function ReadWithMessageConverters(r: Resolver, msg: InputMessage, cs: Collaborators): (res: Result<Option<Obj>>)
  {
    if msg.contentType.InvalidContentType? then Err(HttpMediaTypeNotSupported)
    else if msg.bodyCheckFails then Err(HttpMessageNotReadable)
    else
      var ct := EffectiveContentType(msg.contentType);
      var reader := FirstReader(r.messageConverters, cs, ct);
      if reader.None? then NoConverterDecision(msg)
      else
        var c := r.messageConverters[reader.value];
        if !msg.hasBody then Ok(cs.handleEmptyBody)
        else
          match cs.read(c, ct)
          case ReadFailed => Err(HttpMessageNotReadable)
          case BodyRead(b) => Ok(cs.afterBodyRead(b))
  }

  /**
   * The reading decision, case by case: an invalid header is an
   * unsupported media type; the first converter able to read the
   * effective content type is the only one used, through the empty-body
   * advice when there is no body; with no such converter only a body sent
   * with POST, PUT or PATCH (or with an explicit content type) fails.
   */
  lemma ReadDecision(r: Resolver, msg: InputMessage, cs: Collaborators)
    ensures msg.contentType.InvalidContentType? ==>
              ReadWithMessageConverters(r, msg, cs) == Err(HttpMediaTypeNotSupported)
    ensures !msg.contentType.InvalidContentType? && !msg.bodyCheckFails ==>
              var ct := EffectiveContentType(msg.contentType);
              var res := ReadWithMessageConverters(r, msg, cs);
              && (msg.contentType.NoContentType? ==> ct == APPLICATION_OCTET_STREAM)
              && ((forall j :: 0 <= j < |r.messageConverters| ==> !CanRead(cs, r.messageConverters[j], ct)) ==>
                    res == NoConverterDecision(msg))
              && (forall i ::
                    (0 <= i < |r.messageConverters| && CanRead(cs, r.messageConverters[i], ct) &&
                     (forall j :: 0 <= j < i ==> !CanRead(cs, r.messageConverters[j], ct))) ==>
                    res == (if !msg.hasBody then Ok(cs.handleEmptyBody)
                            else match cs.read(r.messageConverters[i], ct)
                                 case ReadFailed => Err(HttpMessageNotReadable)
                                 case BodyRead(b) => Ok(cs.afterBodyRead(b))))
  {
    if !msg.contentType.InvalidContentType? && !msg.bodyCheckFails {
      var ct := EffectiveContentType(msg.contentType);
      var reader := FirstReader(r.messageConverters, cs, ct);
      forall i | 0 <= i < |r.messageConverters| && CanRead(cs, r.messageConverters[i], ct)
                 && (forall j :: 0 <= j < i ==> !CanRead(cs, r.messageConverters[j], ct))
        ensures reader == Some(i)
      {
      }
    }
  }

  /** isBindExceptionRequired: unless the next parameter is an Errors. */
  predicate IsBindExceptionRequired(parameterIndex: nat, isErrorsType: seq<bool>) {
    !(|isErrorsType| > parameterIndex + 1 && isErrorsType[parameterIndex + 1])
  }

  predicate IsEmptyObj(arg: Option<Obj>) {
    arg.None? || (arg.value.CollectionObj? && |arg.value.elements| == 0)
    || (arg.value.ArrayObj? && |arg.value.items| == 0)
  }

  /** adaptArgumentIfNecessary: wrap into Optional when the parameter type is Optional. */
  function AdaptArgumentIfNecessary(arg: Option<Obj>, isOptionalType: bool): (r: Option<Obj>)
    ensures !isOptionalType ==> r == arg
    ensures isOptionalType ==> r.Some? && r.value.OptionalObj?
    ensures isOptionalType ==> (r.value.content.None? <==> IsEmptyObj(arg))
    ensures isOptionalType && !IsEmptyObj(arg) ==> r.value.content == arg
  {
    if !isOptionalType then arg
    else if IsEmptyObj(arg) then Some(OptionalObj(None))
    else Some(OptionalObj(arg))
  }
}
