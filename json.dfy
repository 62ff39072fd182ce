/**
 * What the proxy sees of a player snapshot once Gson has parsed it. Parsing itself belongs
 * to the environment: it is a function from the text to an object, or to nothing when the
 * text is not a JSON object (Gson throws, or returns null for empty input).
 */
module Json {
  import opened Wrappers

  /** One member of a parsed object, as `has(key)` and `get(key).getAsString()` see it. */
  datatype Field =
    | Absent
      /**
       * A string, number or boolean, or an array whose single element is one of these
       * (read through): `getAsString` gives its text.
       */
    | Scalar(text: string)
      /** An object, null, or any other array: `getAsString` throws. */
    | Structured
  {
    predicate Has() { !Absent? }
  }

  /**
   * A parsed object: its compact re-serialisation (`toString`), the members the proxy
   * reads, and the `players` member when it is an array.
   */
  datatype JsonObject = JsonObject(text: string, name: Field, uuid: Field, players: PlayersField)

  /** The `players` member: an array of elements, or anything else (absent included). */
  datatype PlayersField = NoArray | Array(elements: seq<Element>)

  /** An element of the `players` array: only objects can be read as players. */
  datatype Element = NotObject | AnObject(obj: JsonObject)

  /** Gson's `fromJson(text, JsonObject.class)`, supplied by the environment. */
  type Parser = string -> Option<JsonObject>
}
