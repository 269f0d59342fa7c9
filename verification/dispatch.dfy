/** The two-phase protocol as it drives the plugin's handlers: the factory
    picks a command, peek runs, and process runs only when peek did not
    finish the command. Also the properties that span several handlers. */
module Dispatch {
  import opened Wrappers
  import opened Text
  import opened Bedrock
  import opened Store
  import Core
  import HelloWorld
  import GetMessages
  import CreateMessage

  /** What the host supplies besides the request: the library helpers, the
      size bounds and the current time. */
  datatype Environment = Environment(lib: Libstuff, limits: SizeLimits, now: nat)

  /** What the host gets back for one method line. */
  datatype Reply = NotMine | Replied(response: STable) | Raised(error: Error)

  /** Runs one command: peek, then process unless peek finished it. For
      HelloWorld, whose peekCommand answers COMPLETE with the comment that
      this means "go on and process", processCommand always follows. */
  method Execute(cmd: Command, kind: Core.CommandKind, db: Database, env: Environment) returns (r: Outcome<Error>)
    requires db.Valid()
    modifies cmd, db
    ensures db.Valid()
    ensures kind != Core.CreateMessageCommand ==> unchanged(db)
    ensures r.Fail? ==> cmd.response == old(cmd.response)
    ensures kind == Core.HelloWorldCommand ==>
              r == Pass && cmd.response == HelloWorld.Response(cmd.request, env.now)
    ensures kind == Core.GetMessagesCommand ==>
              && (r == Pass || r == Fail(Thrown(GetMessages.FetchFailed)))
              && (r.Pass? ==> cmd.response == GetMessages.WithListing(old(cmd.response),
                                GetMessages.Composed(env.lib, GetMessages.Listing(db.rows, cmd.request, env.lib)), env.lib))
    ensures kind == Core.CreateMessageCommand ==>
              && (!CreateMessage.Acceptable(cmd.request, env.limits) ==>
                    r == CreateMessage.ValidateRequest(cmd.request, env.limits) && unchanged(db))
              && (CreateMessage.Acceptable(cmd.request, env.limits) ==>
                    r.Pass? || r == Fail(Thrown(CreateMessage.InsertFailed)) || r == Fail(Thrown(CreateMessage.RetrieveFailed)))
              && (r == Fail(Thrown(CreateMessage.InsertFailed)) ==> unchanged(db))
              && var row := CreateMessage.NewRow(old(db.rows), cmd.request, env.now);
                 && (r == Fail(Thrown(CreateMessage.RetrieveFailed)) || r.Pass? ==>
                       db.rows == old(db.rows) + [row] && db.lastInsertRowid == row.messageID)
                 && (r.Pass? ==>
                       cmd.response == CreateMessage.WithStored(old(cmd.response),
                                         Decimal(row.messageID), row.name, row.message, row.createdAt))
  {
    match kind
    case HelloWorldCommand =>
      var peeked := HelloWorld.PeekCommand(db, cmd);
      var processed := HelloWorld.ProcessCommand(db, cmd, env.now);
      r := Pass;
    case GetMessagesCommand =>
      // peek always finishes a listing (Success(true)), so process is
      // never reached here; GetMessages.Process is specified to write the
      // same response should a host call it.
      var peeked := GetMessages.Peek(cmd, db, env.lib);
      if peeked.Failure? {
        r := Fail(peeked.error);
      } else {
        r := Pass;
      }
    case CreateMessageCommand =>
      var peeked := CreateMessage.Peek(cmd, db, env.limits);
      if peeked.Failure? {
        r := Fail(peeked.error);
      } else if peeked.value {
        r := Pass;
      } else {
        r := CreateMessage.Process(cmd, db, env.limits, env.now);
      }
  }

  /** One request through the plugin: a method line the factory does not
      recognise is "not mine" and touches nothing; a command that raises is
      answered with its error, one that completes with its response, and
      HelloWorld, the only command routed, completes with its greeting. */
  method Handle(methodLine: string, request: STable, db: Database, env: Environment) returns (reply: Reply)
    requires db.Valid()
    modifies db
    ensures unchanged(db)
    ensures reply.NotMine? <==> Core.GetCommand(methodLine).None?
    ensures !reply.NotMine? ==> reply == Replied(HelloWorld.Response(request, env.now))
  {
    var kind := Core.GetCommand(methodLine);
    if kind.None? {
      return NotMine;
    }
    var cmd := new Command(methodLine, request);
    var r := Execute(cmd, kind.value, db, env);
    match r
    case Fail(error) => reply := Raised(error);
    case Pass => reply := Replied(cmd.response);
  }

  /** The HelloWorld command's own name is one the factory routes to it. */
  lemma HelloWorldNameIsRouted()
    ensures Core.GetCommand(HelloWorld.GetName()) == Some(Core.HelloWorldCommand)
  {
    Core.GetCommandRoutesOnlyHelloWorld();
  }

  /** Round trip: after a successful CreateMessage, the next GetMessages,
      whatever its limit, lists the new row first, with its id, name and
      message. */
  lemma StoredMessageListedFirst(table: seq<Row>, create: STable, now: nat, list: STable, lib: Libstuff)
    requires Ascending(table) && PositiveIds(table)
    ensures var row := CreateMessage.NewRow(table, create, now);
            var items := GetMessages.Listing(table + [row], list, lib);
      && |items| >= 1
      && items[0].Keys == GetMessages.RecordKeys
      && Get(items[0], "messageID") == Decimal(row.messageID)
      && Get(items[0], "name") == Get(create, "name")
      && Get(items[0], "message") == Get(create, "message")
  {
    var row := CreateMessage.NewRow(table, create, now);
    AppendNextKeepsOrder(table, row.name, row.message, row.createdAt);
    GetMessages.ListingIsNewestFirst(table + [row], list, lib);
  }

  /** Three messages stored into an empty table, then listed with limit 2:
      exactly the last two come back, newest first, with ids 3 and 2. */
  lemma ThreeStoredListTwo(q1: STable, q2: STable, q3: STable, t1: nat, t2: nat, t3: nat, list: STable, lib: Libstuff)
    requires Get(list, "limit") == "2" && lib.calc64("2") == 2
    ensures var s1 := [CreateMessage.NewRow([], q1, t1)];
            var s2 := s1 + [CreateMessage.NewRow(s1, q2, t2)];
            var s3 := s2 + [CreateMessage.NewRow(s2, q3, t3)];
            var items := GetMessages.Listing(s3, list, lib);
      && |items| == 2 && Decimal(|items|) == "2"
      && items[0].Keys == items[1].Keys == GetMessages.RecordKeys
      && Get(items[0], "messageID") == "3" && Get(items[0], "name") == Get(q3, "name")
      && Get(items[0], "message") == Get(q3, "message")
      && Get(items[1], "messageID") == "2" && Get(items[1], "name") == Get(q2, "name")
      && Get(items[1], "message") == Get(q2, "message")
  {
    var s1 := [CreateMessage.NewRow([], q1, t1)];
    assert s1[0].messageID == 1;
    assert MaxId(s1) == 1 by { assert s1[..0] == []; }
    var s2 := s1 + [CreateMessage.NewRow(s1, q2, t2)];
    AppendNextKeepsOrder(s1, Get(q2, "name"), Get(q2, "message"), Decimal(t2));
    assert MaxId(s2) == 2 by { assert s2[..1] == s1; }
    var s3 := s2 + [CreateMessage.NewRow(s2, q3, t3)];
    AppendNextKeepsOrder(s2, Get(q3, "name"), Get(q3, "message"), Decimal(t3));
    GetMessages.ListingIsNewestFirst(s3, list, lib);
    assert Newest(s3, 2) == [s3[2], s3[1]];
  }
}
