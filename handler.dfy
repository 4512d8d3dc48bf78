/**
 * The part of the voice handler that runs once the workflow endpoint has
 * answered: it digs the reply text out of the decoded JSON document, runs the
 * bracketed-list extractor on it, and picks which of three messages to send
 * back to the chat.
 *
 * The bot evaluates Python expressions on whatever the endpoint returned,
 * so a level of the wrong type does not simply read as "missing": `in` on a
 * list compares elements, `in` on a string looks for a substring, and indexing
 * or calling `.get` on the wrong kind of value raises an exception that the
 * handler does not catch. The model keeps those outcomes apart.
 */
module Handler {
  import opened Values
  import opened Extractor

  // ---------------------------------------------------------------------
  // Python operations on decoded JSON
  // ---------------------------------------------------------------------

  /** Python truthiness. */
  predicate Truthy(v: Json) {
    match v
    case JNull => false
    case JBool(b) => b
    case JNumber(n) => n != 0.0
    case JString(str) => str != ""
    case JArray(items) => items != []
    case JObject(fields) => fields != map[]
  }

  /** `needle` occurs in `hay` at index i. */
  predicate OccursAt(needle: string, hay: string, i: int) {
    0 <= i <= |hay| - |needle| && hay[i..i + |needle|] == needle
  }

  /** `needle` occurs in `hay`. */
  predicate IsSubstring(needle: string, hay: string) {
    exists i | 0 <= i <= |hay| - |needle| :: OccursAt(needle, hay, i)
  }

  /** `key in v`: a key of a dict, an element of a list, a substring of a string. */
  function Contains(v: Json, key: string): Outcome<bool> {
    match v
    case JObject(fields) => Ok(key in fields)
    case JArray(items) => Ok(JString(key) in items)
    case JString(str) => Ok(IsSubstring(key, str))
    case _ => Raised(TypeError)
  }

  /** `v[key]` for a string key. */
  function Index(v: Json, key: string): Outcome<Json> {
    match v
    case JObject(fields) => if key in fields then Ok(fields[key]) else Raised(KeyError)
    case _ => Raised(TypeError)
  }

  /** `v[0]`; a decoded JSON object has only string keys, so 0 is never one of them. */
  function First(v: Json): Outcome<Json> {
    match v
    case JArray(items) => if items == [] then Raised(IndexError) else Ok(items[0])
    case JString(str) => if str == "" then Raised(IndexError) else Ok(JString([str[0]]))
    case JObject(_) => Raised(KeyError)
    case _ => Raised(TypeError)
  }

  /** `v.get(key, fallback)`; only a dict has a `get` method. */
  function Get(v: Json, key: string, fallback: Json): Outcome<Json> {
    match v
    case JObject(fields) => Ok(if key in fields then fields[key] else fallback)
    case _ => Raised(AttributeError)
  }

  // ---------------------------------------------------------------------
  // Looking up the reply text
  // ---------------------------------------------------------------------

  /** The guarded lookup of `outputs[0].outputs[0].results.message.data.text`:
      `Ok(None)` when a guard fails, `Ok(Some(text))` when every guard holds. */
  function ResponseText(data: Json): Outcome<Option<Json>> {
    var hasOutputs :- Contains(data, "outputs");
    if !hasOutputs then Ok(None) else
    var outputs :- Index(data, "outputs");
    if !Truthy(outputs) then Ok(None) else
    var firstOutput :- First(outputs);
    FirstOutputText(firstOutput)
  }

  /** The lookup from `data["outputs"][0]` on. */
  function FirstOutputText(firstOutput: Json): Outcome<Option<Json>> {
    var hasInner :- Contains(firstOutput, "outputs");
    if !hasInner then Ok(None) else
    var inner :- Index(firstOutput, "outputs");
    if !Truthy(inner) then Ok(None) else
    var secondOutput :- First(inner);
    SecondOutputText(secondOutput)
  }

  /** The lookup from `first_output["outputs"][0]` on. */
  function SecondOutputText(secondOutput: Json): Outcome<Option<Json>> {
    var hasResults :- Contains(secondOutput, "results");
    if !hasResults then Ok(None) else
    var resultsOrEmpty :- Get(secondOutput, "results", JObject(map[]));
    var hasMessage :- Contains(resultsOrEmpty, "message");
    if !hasMessage then Ok(None) else
    var results :- Index(secondOutput, "results");
    var message :- Index(results, "message");
    MessageText(message)
  }

  /** The lookup from `second_output["results"]["message"]` on. */
  function MessageText(message: Json): Outcome<Option<Json>> {
    var messageData :- Get(message, "data", JNull);
    if !Truthy(messageData) then Ok(None) else
    var hasText :- Contains(messageData, "text");
    if !hasText then Ok(None) else
    var text :- Index(messageData, "text");
    Ok(Some(text))
  }

  /** The nested shape the lookup is written for, ending at `text`: a dict at
      every level except the two `outputs` lists, each non-empty. */
  ghost predicate DocumentedPath(data: Json, text: Json) {
    && data.JObject? && "outputs" in data.fields
    && var outputs := data.fields["outputs"];
    && outputs.JArray? && outputs.items != []
    && FirstOutputPath(outputs.items[0], text)
  }

  ghost predicate FirstOutputPath(firstOutput: Json, text: Json) {
    && firstOutput.JObject? && "outputs" in firstOutput.fields
    && var inner := firstOutput.fields["outputs"];
    && inner.JArray? && inner.items != []
    && SecondOutputPath(inner.items[0], text)
  }

  ghost predicate SecondOutputPath(secondOutput: Json, text: Json) {
    && secondOutput.JObject? && "results" in secondOutput.fields
    && var results := secondOutput.fields["results"];
    && results.JObject? && "message" in results.fields
    && MessagePath(results.fields["message"], text)
  }

  ghost predicate MessagePath(message: Json, text: Json) {
    && message.JObject? && "data" in message.fields
    && var messageData := message.fields["data"];
    && messageData.JObject? && "text" in messageData.fields
    && messageData.fields["text"] == text
  }

  /** A Python literal that `json.dumps` can write out: no sets, bytes,
      complex numbers or Ellipsis anywhere, and dict keys that are strings,
      integers, floats, booleans or None. */
  predicate Serializable(v: Value)
    decreases v
  {
    match v
    case PyList(elems) => forall i :: 0 <= i < |elems| ==> Serializable(elems[i])
    case PyTuple(parts) => forall i :: 0 <= i < |parts| ==> Serializable(parts[i])
    case PySet(_) => false
    case PyComplex(_, _) => false
    case PyBytes(_) => false
    case PyEllipsis => false
    case PyDict(entries) =>
      forall i :: 0 <= i < |entries| ==> ScalarKey(entries[i].0) && Serializable(entries[i].1)
    case _ => true
  }

  /** `json.dumps` can write out every one of the objects. */
  predicate AllSerializable(objects: seq<Value>) {
    forall i :: 0 <= i < |objects| ==> Serializable(objects[i])
  }

  /** A dict key `json.dumps` accepts. */
  predicate ScalarKey(k: Value) {
    k.PyNone? || k.PyBool? || k.PyInt? || k.PyFloat? || k.PyStr?
  }

  // ---------------------------------------------------------------------
  // Choosing the reply
  // ---------------------------------------------------------------------

  /** The message the handler sends back, or the exception that ends it first. */
  datatype Reply =
    | NoTextFound                       // no text in the workflow's answer
    | EchoRaw(text: string)             // text found, nothing extracted: echo it
    | ShowObjects(objects: seq<Value>)  // the extracted objects
    | Unhandled(error: PyError)         // an exception the handler does not catch

  /** The reply chosen for a decoded workflow answer. */
  function SelectReply(data: Json, decode: Decoder): Reply {
    ReplyFor(ResponseText(data), decode)
  }

  /** The reply chosen once the lookup has run. A truthy text that is not a
      string makes the regular-expression search raise a TypeError, and so
      does writing out extracted objects that JSON cannot hold. */
  function ReplyFor(lookup: Outcome<Option<Json>>, decode: Decoder): Reply {
    match lookup
    case Raised(e) => Unhandled(e)
    case Ok(None) => NoTextFound
    case Ok(Some(text)) =>
      if !Truthy(text) then NoTextFound
      else if !text.JString? then Unhandled(TypeError)
      else
        var objects := Extracted(text.str, decode);
        if objects == [] then EchoRaw(text.str)
        else if AllSerializable(objects) then ShowObjects(objects)
        else Unhandled(TypeError)
  }

  /** The handler from the decoded answer on, running the extractor as a loop. */
  method HandleWorkflowResponse(data: Json, decode: Decoder) returns (reply: Reply)
    ensures reply == SelectReply(data, decode)
  {
    var lookup := ResponseText(data);
    if lookup.Raised? {
      return Unhandled(lookup.error);
    }
    var found := lookup.value;
    if found.None? || !Truthy(found.value) {
      return NoTextFound;
    }
    var responseText := found.value;
    if !responseText.JString? {
      return Unhandled(TypeError);
    }
    var parsedObjects := ParseLangflowResponse(responseText.str, decode);
    if parsedObjects == [] {
      reply := EchoRaw(responseText.str);
    } else if AllSerializable(parsedObjects) {
      reply := ShowObjects(parsedObjects);
    } else {
      reply := Unhandled(TypeError);
    }
  }

  // ---------------------------------------------------------------------
  // Properties
  // ---------------------------------------------------------------------

  /** From the message on, a text is found exactly when the message is a dict
      whose truthy `data` dict holds it under `text`. */
  lemma MessageTextFoundIff(message: Json, text: Json)
    ensures MessageText(message) == Ok(Some(text)) <==> MessagePath(message, text)
  {
  }

  /** From the second output on, a text is found exactly when `results` and
      `message` are dicts leading to it. */
  lemma SecondOutputTextFoundIff(secondOutput: Json, text: Json)
    ensures SecondOutputText(secondOutput) == Ok(Some(text)) <==> SecondOutputPath(secondOutput, text)
  {
    if secondOutput.JObject? && "results" in secondOutput.fields {
      var results := secondOutput.fields["results"];
      if results.JObject? && "message" in results.fields {
        MessageTextFoundIff(results.fields["message"], text);
      }
    }
  }

  /** From the first output on, a text is found exactly when its `outputs` is a
      non-empty list whose first element leads to it. */
  lemma FirstOutputTextFoundIff(firstOutput: Json, text: Json)
    ensures FirstOutputText(firstOutput) == Ok(Some(text)) <==> FirstOutputPath(firstOutput, text)
  {
    if firstOutput.JObject? && "outputs" in firstOutput.fields {
      var inner := firstOutput.fields["outputs"];
      if inner.JArray? && inner.items != [] {
        SecondOutputTextFoundIff(inner.items[0], text);
      } else if inner.JString? && inner.str != "" {
        SecondOutputTextFoundIff(JString([inner.str[0]]), text);
      }
    }
  }

  /** The lookup yields a text exactly when the answer has the documented shape
      down to that text. */
  lemma ResponseTextFoundIff(data: Json, text: Json)
    ensures ResponseText(data) == Ok(Some(text)) <==> DocumentedPath(data, text)
  {
    if data.JObject? && "outputs" in data.fields {
      var outputs := data.fields["outputs"];
      if outputs.JArray? && outputs.items != [] {
        FirstOutputTextFoundIff(outputs.items[0], text);
      } else if outputs.JString? && outputs.str != "" {
        FirstOutputTextFoundIff(JString([outputs.str[0]]), text);
      }
    }
  }

  /** The documented shape leads to at most one text. */
  lemma DocumentedPathUnique(data: Json, t1: Json, t2: Json)
    requires DocumentedPath(data, t1) && DocumentedPath(data, t2)
    ensures t1 == t2
  {
    ResponseTextFoundIff(data, t1);
    ResponseTextFoundIff(data, t2);
  }

  /** An answer that is a dict whose `outputs` is missing or falsy (null,
      false, zero, an empty string, list or dict) yields no text and no
      exception. */
  lemma NoOutputsNoText(data: Json, decode: Decoder)
    requires data.JObject?
    requires "outputs" !in data.fields || !Truthy(data.fields["outputs"])
    ensures ResponseText(data) == Ok(None)
    ensures SelectReply(data, decode) == NoTextFound
  {
  }

  /** Every level the lookup reaches has the type it is written for, though
      keys may be missing and the `outputs` lists may be empty: the answer,
      both outputs, `results` and `message` are dicts, a truthy `outputs` is a
      list, and a truthy `data` is a dict. */
  predicate GuardedShape(data: Json) {
    && data.JObject?
    && ("outputs" in data.fields ==>
          var outputs := data.fields["outputs"];
          Truthy(outputs) ==> outputs.JArray? && FirstOutputShape(outputs.items[0]))
  }

  predicate FirstOutputShape(firstOutput: Json) {
    && firstOutput.JObject?
    && ("outputs" in firstOutput.fields ==>
          var inner := firstOutput.fields["outputs"];
          Truthy(inner) ==> inner.JArray? && SecondOutputShape(inner.items[0]))
  }

  predicate SecondOutputShape(secondOutput: Json) {
    && secondOutput.JObject?
    && ("results" in secondOutput.fields ==>
          var results := secondOutput.fields["results"];
          results.JObject? && ("message" in results.fields ==> MessageShape(results.fields["message"])))
  }

  predicate MessageShape(message: Json) {
    && message.JObject?
    && ("data" in message.fields ==>
          var messageData := message.fields["data"];
          Truthy(messageData) ==> messageData.JObject?)
  }

  /** On an answer of the guarded shape no guard raises: a missing key or an
      empty list at any level gives the no-text reply unless a truthy text
      sits at the documented place. */
  lemma GuardsNeverRaise(data: Json, decode: Decoder)
    requires GuardedShape(data)
    ensures ResponseText(data).Ok?
    ensures SelectReply(data, decode) == NoTextFound
        <==> forall text :: DocumentedPath(data, text) ==> !Truthy(text)
  {
    NoTextIff(data, decode);
  }

  /** Once the lookup has run, the raw text is echoed back exactly when it
      found a non-empty string from which nothing is extracted. */
  lemma ReplyForEchoIff(lookup: Outcome<Option<Json>>, decode: Decoder, text: string)
    ensures ReplyFor(lookup, decode) == EchoRaw(text)
        <==> lookup == Ok(Some(JString(text))) && text != "" && Extracted(text, decode) == []
  {
    match lookup
    case Raised(_) =>
    case Ok(None) =>
    case Ok(Some(found)) =>
      if Truthy(found) && found.JString? {
        var objects := Extracted(found.str, decode);
        assert ReplyFor(lookup, decode) == if objects == [] then EchoRaw(found.str)
          else if AllSerializable(objects) then ShowObjects(objects) else Unhandled(TypeError);
      }
  }

  /** Once the lookup has run, objects are shown exactly when it found a string
      from which they, and at least one of them, are extracted, and JSON can
      hold them all. */
  lemma ReplyForShowObjectsIff(lookup: Outcome<Option<Json>>, decode: Decoder, objects: seq<Value>)
    ensures ReplyFor(lookup, decode) == ShowObjects(objects)
        <==> && objects != []
             && AllSerializable(objects)
             && lookup.Ok? && lookup.value.Some? && lookup.value.value.JString?
             && Extracted(lookup.value.value.str, decode) == objects
  {
    if lookup.Ok? && lookup.value.Some? && lookup.value.value.JString? && lookup.value.value.str == "" {
      NoOpeningNoObjects("", decode);
    }
  }

  /** The raw text is echoed back exactly when the documented text is a
      non-empty string from which nothing is extracted. */
  lemma EchoIff(data: Json, decode: Decoder, text: string)
    ensures SelectReply(data, decode) == EchoRaw(text)
        <==> DocumentedPath(data, JString(text)) && text != "" && Extracted(text, decode) == []
  {
    ResponseTextFoundIff(data, JString(text));
    ReplyForEchoIff(ResponseText(data), decode, text);
  }

  /** The extracted objects are shown exactly when the documented text is a
      string from which they, and at least one of them, are extracted, and JSON
      can hold them all. */
  lemma ShowObjectsIff(data: Json, decode: Decoder, objects: seq<Value>)
    ensures SelectReply(data, decode) == ShowObjects(objects)
        <==> && objects != []
             && AllSerializable(objects)
             && exists text :: DocumentedPath(data, JString(text)) && Extracted(text, decode) == objects
  {
    var lookup := ResponseText(data);
    ReplyForShowObjectsIff(lookup, decode, objects);
    if lookup.Ok? && lookup.value.Some? {
      ResponseTextFoundIff(data, lookup.value.value);
    }
    forall text | DocumentedPath(data, JString(text))
      ensures lookup == Ok(Some(JString(text)))
    {
      ResponseTextFoundIff(data, JString(text));
    }
  }

  /** The no-text reply is sent exactly when the lookup raises nothing and
      every text the documented shape leads to is falsy. */
  lemma NoTextIff(data: Json, decode: Decoder)
    ensures SelectReply(data, decode) == NoTextFound
        <==> ResponseText(data).Ok? && forall text :: DocumentedPath(data, text) ==> !Truthy(text)
  {
    forall text | DocumentedPath(data, text)
      ensures ResponseText(data) == Ok(Some(text))
    {
      ResponseTextFoundIff(data, text);
    }
    var lookup := ResponseText(data);
    if lookup.Ok? && lookup.value.Some? {
      ResponseTextFoundIff(data, lookup.value.value);
    }
  }

  /** A truthy text that is not a string ends the handler with a TypeError
      instead of a reply. */
  lemma NonStringTextRaises(data: Json, decode: Decoder, text: Json)
    requires DocumentedPath(data, text) && Truthy(text) && !text.JString?
    ensures SelectReply(data, decode) == Unhandled(TypeError)
  {
    ResponseTextFoundIff(data, text);
  }
}
