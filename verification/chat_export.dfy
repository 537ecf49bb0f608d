/** The shape of one node of a conversation's `mapping` in a chat export:
    `{"message": {"author": {"role": ...}, "content": {"parts": [...]}}}`.
    Both extractors look for the same path through a node; they differ in
    how they react when a step of the path is missing or has the wrong type. */
module ChatExport {
  import opened Prelude
  import opened Json

  /** The value under `key` when `v` is a dict holding it. */
  function Field(v: Json, key: string): Option<Json> {
    if v.JObj? then Lookup(v.fields, key) else None
  }

  /** The node is a dict whose `message` is a dict whose `author` is a dict
      whose `role` is the string "user". */
  predicate IsUserNode(node: Json) {
    && Field(node, "message").Some?
    && Field(Field(node, "message").value, "author").Some?
    && Field(Field(Field(node, "message").value, "author").value, "role") == Some(JStr("user"))
  }

  /** The `parts` value of a node's `message.content`, when that path exists. */
  function PartsOf(node: Json): Option<Json> {
    match Field(node, "message")
    case None => None
    case Some(message) =>
      match Field(message, "content")
      case None => None
      case Some(content) => Field(content, "parts")
  }
}
