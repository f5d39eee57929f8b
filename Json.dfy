/** The slice of Jackson's tree model the plugins use. Parsing text into a tree and the
    numeric/text coercions of nodes belong to the library; they are handed to the
    plugin model as the functions of a `Jackson` value rather than re-implemented. */
module Json {
  import opened JavaLang

  /** A `JsonNode`. `JMissing` is the node `readTree` returns for text holding no value. */
  datatype Json =
    | JNull
    | JBool(b: bool)
    | JNumber(lexeme: string)
    | JString(text: string)
    | JArray(elems: seq<Json>)
    | JObject(fields: map<string, Json>)
    | JMissing

  /** What `ObjectMapper.readTree` does with a text: a tree, a `JsonParseException`
      (the text is not JSON), or any other `IOException` raised while reading. */
  datatype ReadResult = Tree(root: Json) | SyntaxError | ReadFailure

  /** The library behaviour the plugins depend on. `asLong` and `asText` are Jackson's
      coercions of a node to a `long` and to a `String`. */
  datatype Jackson = Jackson(
    readTree: string -> ReadResult,
    asLong: Json -> Int64,
    asText: Json -> string)

  /** The exception `readTree` raised, as the plugin sees it. */
  function ReadException(r: ReadResult): Exc
    requires !r.Tree?
  {
    if r.SyntaxError? then Foreign(JsonParseException) else Foreign(IOException)
  }

  /** `node.get(key)`: only an object node has fields; `null` (here `None`) otherwise. */
  function Get(node: Json, key: string): Option<Json>
  {
    if node.JObject? && key in node.fields then Some(node.fields[key]) else None
  }

  /** `node.has(key)`. A key mapped to JSON `null` is present. */
  predicate Has(node: Json, key: string)
  {
    Get(node, key).Some?
  }
}
