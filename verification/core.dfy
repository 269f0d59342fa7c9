/** The Core plugin: its identity, its introspection answer, its
    table-conflict policy and the factory that turns a method line into a
    command of this plugin, or into "not mine". */
module Core {
  import opened Wrappers
  import opened Text
  import opened Bedrock

  /** The commands of the plugin family. */
  datatype CommandKind = HelloWorldCommand | CreateMessageCommand | GetMessagesCommand

  function GetName(): (name: string)
    ensures name == "Core"
  {
    "Core"
  }

  function GetVersion(): (version: string)
    ensures version == "1.0.0"
  {
    "1.0.0"
  }

  /** The capabilities answer: exactly the plugin's name and version. */
  function GetInfo(): (info: STable)
    ensures info.Keys == {Lower("name"), Lower("version")}
    ensures Get(info, "name") == GetName() && Get(info, "version") == GetVersion()
    ensures Spelled(info, "name") && Spelled(info, "version")
  {
    Set(Set(map[], "name", GetName()), "version", GetVersion())
  }

  /** The plugin never asks for the commit page to be locked, whatever the table. */
  function ShouldLockCommitPageOnTableConflict(tableName: string): (lock: bool)
    ensures !lock
  {
    false
  }

  /** getCommand: total over method lines; only HelloWorld, in any letter
      case, is this plugin's. */
  function GetCommand(methodLine: string): (r: Option<CommandKind>)
    ensures r.Some? <==>
              && |methodLine| == 10
              && forall i :: 0 <= i < 10 ==> ToLower(methodLine[i]) == ToLower("HelloWorld"[i])
    ensures r.Some? ==> r.value == HelloWorldCommand
  {
    EqualsIgnoreCaseCharwise(methodLine, "HelloWorld");
    if EqualsIgnoreCase(methodLine, "HelloWorld") then Some(HelloWorldCommand) else None
  }

  /** The other two handlers are not reachable through the factory, while
      HelloWorld is reached in any letter case. */
  lemma GetCommandRoutesOnlyHelloWorld()
    ensures GetCommand("CreateMessage") == None
    ensures GetCommand("GetMessages") == None
    ensures GetCommand("HelloWorld") == Some(HelloWorldCommand)
    ensures GetCommand("helloworld") == Some(HelloWorldCommand)
    ensures GetCommand("HELLOWORLD") == Some(HelloWorldCommand)
  {
    var hw := "HelloWorld";
    assert forall i :: 0 <= i < 10 ==> ToLower("helloworld"[i]) == ToLower(hw[i]);
    assert forall i :: 0 <= i < 10 ==> ToLower("HELLOWORLD"[i]) == ToLower(hw[i]);
  }
}
