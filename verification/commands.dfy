/**
 * A guild's custom commands: creating, updating and deleting one, and
 * showing one's response (src/Standard/Commands.cs).
 *
 * The guild's command collection is a sequence of (name, response) records in
 * which no two share a name. Replies are the texts the command sends; the
 * database save and the chat transport are not part of this model.
 */
module Commands {
  import opened Wrappers

  datatype CustomCommand = CustomCommand(name: string, response: string)

  /** A reply sent plainly, or through the success helper. */
  datatype Reply = Respond(text: string) | Success(text: string)

  /** No two commands share a name. */
  ghost predicate DistinctNames(cs: seq<CustomCommand>)
  {
    forall i, j :: 0 <= i < j < |cs| ==> cs[i].name != cs[j].name
  }

  /** The position of the command with that name, if any (the guild's command lookup). */
  function IndexOf(cs: seq<CustomCommand>, name: string): (r: Option<nat>)
    ensures r.Some? ==> r.value < |cs| && cs[r.value].name == name
    ensures r.None? <==> forall i :: 0 <= i < |cs| ==> cs[i].name != name
  {
    if cs == [] then None
    else if cs[|cs| - 1].name == name then Some(|cs| - 1)
    else IndexOf(cs[..|cs| - 1], name)
  }

  /** The command with that name, if any. */
  function Lookup(cs: seq<CustomCommand>, name: string): Option<CustomCommand>
  {
    match IndexOf(cs, name)
    case None => None
    case Some(i) => Some(cs[i])
  }

  /** In a collection with distinct names, the command found is the only one of that name. */
  lemma LookupUnique(cs: seq<CustomCommand>, name: string, i: nat)
    requires DistinctNames(cs) && i < |cs| && cs[i].name == name
    ensures IndexOf(cs, name) == Some(i) && Lookup(cs, name) == Some(cs[i])
  {
  }

  /** The chat's inline-code rendering of a name. */
  function Code(s: string): string
  {
    "`" + s + "`"
  }

  /** The success text for a command created or updated with a response. */
  function SavedText(name: string, action: string, response: string): string
  {
    "Command " + Code(name) + " " + action + " with response " + response + "."
  }

  /**
   * What `CreateCommand(name, response)` leaves in the collection and sends:
   * an empty response deletes the command, or says it does not exist; a
   * non-empty one updates the command's response, or adds a new command.
   */
  function CreateCommandSpec(cs: seq<CustomCommand>, name: string, response: string): (seq<CustomCommand>, Reply)
  {
    match IndexOf(cs, name)
    case None =>
      if response == "" then (cs, Respond("Command " + Code(name) + " does not exist and thus cannot be deleted."))
      else (cs + [CustomCommand(name, response)], Success(SavedText(name, "created", response)))
    case Some(i) =>
      if response == "" then (cs[..i] + cs[i + 1..], Respond("Custom command " + Code(name) + " has been deleted."))
      else (cs[i := cs[i].(response := response)], Success(SavedText(name, "updated", response)))
  }

  /**
   * After a non-empty response the command answers with it; after an empty
   * one there is no command of that name. Either way the names stay distinct.
   */
  lemma CreateThenLookup(cs: seq<CustomCommand>, name: string, response: string)
    requires DistinctNames(cs)
    ensures DistinctNames(CreateCommandSpec(cs, name, response).0)
    ensures response != "" ==> Lookup(CreateCommandSpec(cs, name, response).0, name) == Some(CustomCommand(name, response))
    ensures response == "" ==> Lookup(CreateCommandSpec(cs, name, response).0, name) == None
  {
    var cs' := CreateCommandSpec(cs, name, response).0;
    match IndexOf(cs, name)
    case None =>
      if response != "" {
        LookupUnique(cs', name, |cs|);
      }
    case Some(i) =>
      if response == "" {
        assert forall k :: 0 <= k < |cs'| ==> cs'[k] == (if k < i then cs[k] else cs[k + 1]);
      } else {
        LookupUnique(cs', name, i);
      }
  }

  /** Creating, updating or deleting one command leaves every other command as it was. */
  lemma CreateKeepsOthers(cs: seq<CustomCommand>, name: string, response: string, other: string)
    requires DistinctNames(cs) && other != name
    ensures Lookup(CreateCommandSpec(cs, name, response).0, other) == Lookup(cs, other)
  {
    var cs' := CreateCommandSpec(cs, name, response).0;
    CreateThenLookup(cs, name, response);
    match IndexOf(cs, other)
    case None =>
      if IndexOf(cs, name).Some? && response == "" {
        var i := IndexOf(cs, name).value;
        assert forall k :: 0 <= k < |cs'| ==> cs'[k] == (if k < i then cs[k] else cs[k + 1]);
      }
    case Some(j) =>
      match IndexOf(cs, name)
      case None =>
        LookupUnique(cs', other, j);
      case Some(i) =>
        if response == "" {
          var k := if j < i then j else j - 1;
          assert cs'[k] == cs[j];
          LookupUnique(cs', other, k);
        } else {
          LookupUnique(cs', other, j);
        }
  }

  /**
   * The collection's size: one more when a command is created, one fewer when
   * one is deleted, unchanged otherwise.
   */
  lemma CreateCommandCount(cs: seq<CustomCommand>, name: string, response: string)
    ensures var n := |CreateCommandSpec(cs, name, response).0|;
      && (IndexOf(cs, name).None? && response != "" ==> n == |cs| + 1)
      && (IndexOf(cs, name).Some? && response == "" ==> n == |cs| - 1)
      && (IndexOf(cs, name).None? == (response == "") ==> n == |cs|)
  {
  }

  /** The reply of `CommandDump`: the command's name and response, or that there is none. */
  function DumpReply(cs: seq<CustomCommand>, command: string): (text: string)
  {
    match Lookup(cs, command)
    case None => "No custom command named " + command
    case Some(c) => c.name + ": " + c.response
  }

  /** After a command is given a non-empty response, dumping it shows exactly that response. */
  lemma DumpAfterCreate(cs: seq<CustomCommand>, name: string, response: string)
    requires DistinctNames(cs) && response != ""
    ensures DumpReply(CreateCommandSpec(cs, name, response).0, name) == name + ": " + response
  {
    CreateThenLookup(cs, name, response);
  }

  /** After a command is deleted, dumping it says there is no such command. */
  lemma DumpAfterDelete(cs: seq<CustomCommand>, name: string)
    requires DistinctNames(cs)
    ensures DumpReply(CreateCommandSpec(cs, name, "").0, name) == "No custom command named " + name
  {
    CreateThenLookup(cs, name, "");
  }

  /** One guild's custom commands, as the command module sees them. */
  class Guild {
    var commands: seq<CustomCommand>

    ghost predicate Valid()
      reads this
    {
      DistinctNames(commands)
    }

    constructor ()
      ensures commands == [] && Valid()
    {
      commands := [];
    }

    /**
     * `CreateCommand`: looks the command up; with an empty response, removes
     * it or says it does not exist; otherwise adds it, or sets its response.
     */
    method CreateCommand(name: string, response: string) returns (reply: Reply)
      requires Valid()
      modifies this
      ensures (commands, reply) == CreateCommandSpec(old(commands), name, response)
      ensures Valid()
    {
      CreateThenLookup(commands, name, response);
      var index := IndexOf(commands, name);
      if response == "" {
        if index.None? {
          reply := Respond("Command " + Code(name) + " does not exist and thus cannot be deleted.");
          return;
        }
        var i := index.value;
        commands := commands[..i] + commands[i + 1..];
        reply := Respond("Custom command " + Code(name) + " has been deleted.");
        return;
      }
      var action;
      if index.None? {
        commands := commands + [CustomCommand(name, response)];
        action := "created";
      } else {
        var i := index.value;
        commands := commands[i := commands[i].(response := response)];
        action := "updated";
      }
      reply := Success(SavedText(name, action, response));
    }

    /** `CommandDump`: the command's name and response, or that there is no such command. */
    method CommandDump(command: string) returns (text: string)
      ensures Lookup(commands, command).None? ==> text == "No custom command named " + command
      ensures Lookup(commands, command).Some? ==>
        text == command + ": " + Lookup(commands, command).value.response
      ensures text == DumpReply(commands, command)
    {
      var customCommand := Lookup(commands, command);
      if customCommand.None? {
        return "No custom command named " + command;
      } else {
        return customCommand.value.name + ": " + customCommand.value.response;
      }
    }
  }
}
