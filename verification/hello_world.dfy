/** The HelloWorld command: a greeting with a default name, written into a
    fresh response table. */
module HelloWorld {
  import opened Bedrock
  import opened Text
  import Core
  import Store

  function GetName(): (name: string)
    ensures name == "HelloWorld"
  {
    "HelloWorld"
  }

  function GetDescription(): (description: string)
    ensures description == "A simple hello world command for the Core plugin"
  {
    "A simple hello world command for the Core plugin"
  }

  /** peekCommand: complete at once. BedrockCommand::RESULT is used here
      only as COMPLETE; the point of this function is its missing reads
      clause: it cannot read the store or the command's response. */
  function PeekCommand(db: Store.Database, command: Command): (r: CommandResult)
    ensures r == Complete
  {
    Complete
  }

  /** The name to greet: the request's `name`, or "World" when it is empty or missing. */
  function GreetedName(request: STable): (name: string)
    ensures name != ""
    ensures Get(request, "name") != "" ==> name == Get(request, "name")
    ensures Get(request, "name") == "" ==> name == "World"
  {
    if Get(request, "name") == "" then "World" else Get(request, "name")
  }

  /** The greeting text: "Hello, ", the name, then "!"; the name can be
      read back from it. */
  function Greeting(name: string): (text: string)
    ensures |text| == |name| + 8
    ensures text[..7] == "Hello, " && text[7..|text| - 1] == name && text[|text| - 1] == '!'
  {
    "Hello, " + name + "!"
  }

  /** The fresh table processCommand installs as the response. */
  function Response(request: STable, now: nat): (response: STable)
    ensures response.Keys == {Lower("message"), Lower("from"), Lower("timestamp"), Lower("plugin_version")}
    ensures Get(response, "message") == Greeting(GreetedName(request))
    ensures Get(response, "from") == "Bedrock Core Plugin"
    ensures Spelled(response, "message") && Spelled(response, "from")
    ensures Spelled(response, "timestamp") && Spelled(response, "plugin_version")
    ensures Get(response, "timestamp") == Decimal(now)
    ensures Get(response, "plugin_version") == Core.GetVersion()
  {
    var message := Set(map[], "message", Greeting(GreetedName(request)));
    var from := Set(message, "from", "Bedrock Core Plugin");
    var timestamp := Set(from, "timestamp", Decimal(now));
    Set(timestamp, "plugin_version", Core.GetVersion())
  }

  /** The name is found whatever its letter case in the request: a request
      holding only `Name` is greeted by that value. */
  lemma GreetsNameInAnyCase(value: string)
    requires value != ""
    ensures GreetedName(Set(map[], "Name", value)) == value
    ensures GreetedName(Set(map[], "NAME", value)) == value
  {
    assert Lower("Name") == Lower("name");
    assert Lower("NAME") == Lower("name");
  }

  /** processCommand: replaces the whole response (no earlier field
      survives), leaves the store alone and completes. `now` is STimeNow(). */
  method ProcessCommand(db: Store.Database, command: Command, now: nat) returns (r: CommandResult)
    modifies command
    ensures r == Complete
    ensures command.response == Response(command.request, now)
  {
    var name := Get(command.request, "name");
    if name == "" {
      name := "World";
    }
    var response: STable := map[];
    response := Set(response, "message", "Hello, " + name + "!");
    response := Set(response, "from", "Bedrock Core Plugin");
    response := Set(response, "timestamp", Decimal(now));
    response := Set(response, "plugin_version", Core.GetVersion());
    command.response := response;
    r := Complete;
  }
}
