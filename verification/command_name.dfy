/** _mongoc_get_command_name: the name of the command a command document
    runs, looking through a "$query" / "query" wrapper. */
module CommandName {
  import opened Wrappers
  import opened Bson

  /** A key that starts with '$', such as "$query" or "$readPreference". */
  predicate IsDollarKey(key: string) {
    |key| > 0 && key[0] == '$'
  }

  /** The wrapper key a command's first key points at: "$query" after any
      '$' key, "query" after the key "query", and none otherwise. */
  function WrapperKey(first: string): (w: Option<string>)
    ensures w.Some? <==> IsDollarKey(first) || first == "query"
  {
    if IsDollarKey(first) then Some("$query")
    else if first == "query" then Some("query")
    else None
  }

  /** A document value with at least one field. */
  predicate IsNonEmptyDocument(v: Value) {
    v.Document? && |v.fields| > 0
  }

  /** _mongoc_get_command_name(command). An empty command has no name.
      Otherwise the name is the first key, unless that key starts with '$'
      or is "query" and the command's wrapper field ("$query" or "query",
      first occurrence) holds a non-empty document: then it is that
      document's first key. */
  function GetCommandName(command: Document): (name: Option<string>)
    ensures name.None? <==> |command| == 0
    ensures name.Some? ==>
      || name.value == command[0].key
      || exists w :: w in ["$query", "query"] && Find(command, w).Some?
                       && IsNonEmptyDocument(Find(command, w).value)
                       && name.value == Find(command, w).value.fields[0].key
    ensures |command| > 0 && WrapperKey(command[0].key).None? ==> name == Some(command[0].key)
    ensures |command| > 0 && WrapperKey(command[0].key).Some? ==>
      var inner := Find(command, WrapperKey(command[0].key).value);
      if inner.Some? && IsNonEmptyDocument(inner.value) then name == Some(inner.value.fields[0].key)
      else name == Some(command[0].key)
  {
    if |command| == 0 then None
    else
      var first := command[0].key;
      match WrapperKey(first)
      case None => Some(first)
      case Some(w) =>
        match Find(command, w)
        case Some(Document(fields)) =>
          if |fields| > 0 then Some(fields[0].key) else Some(first)
        case _ => Some(first)
  }

  /** A plain command: non-empty, and its first key neither starts with '$'
      nor is "query". */
  predicate IsPlainCommand(command: Document) {
    |command| > 0 && WrapperKey(command[0].key).None?
  }

  /** A plain command is named by its first key, whatever follows it. */
  lemma PlainCommandName(name: string, value: Value, rest: Document)
    requires WrapperKey(name).None?
    ensures GetCommandName([Field(name, value)] + rest) == Some(name)
  {
  }

  /** Wrapping a plain command as {$query: command, ...modifiers} does not
      change its name, whatever '$' modifiers follow the wrapper. */
  lemma WrappedCommandName(command: Document, modifiers: Document)
    requires IsPlainCommand(command)
    ensures GetCommandName([Field("$query", Document(command))] + modifiers) == GetCommandName(command)
  {
    var wrapped := [Field("$query", Document(command))] + modifiers;
    assert wrapped[0].key == "$query";
    assert Find(wrapped, "$query") == Some(Document(command));
  }

  /** The same holds when a '$' modifier such as "$readPreference" comes
      before the wrapper: the first "$query" field is found wherever it is. */
  lemma ModifierFirstCommandName(modifier: Field, command: Document, rest: Document)
    requires IsDollarKey(modifier.key) && modifier.key != "$query"
    requires IsPlainCommand(command)
    ensures GetCommandName([modifier, Field("$query", Document(command))] + rest) == GetCommandName(command)
  {
    var wrapped := [modifier, Field("$query", Document(command))] + rest;
    assert wrapped[1] == Field("$query", Document(command));
    assert Find(wrapped, "$query") == Some(Document(command));
  }

  /** The older "query" wrapper: {query: command, ...} is named after the
      command it wraps. */
  lemma QueryWrappedCommandName(command: Document, rest: Document)
    requires IsPlainCommand(command)
    ensures GetCommandName([Field("query", Document(command))] + rest) == GetCommandName(command)
  {
    var wrapped := [Field("query", Document(command))] + rest;
    assert Find(wrapped, "query") == Some(Document(command));
  }
}
