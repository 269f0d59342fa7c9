/** The CreateMessage command: a validated insert into the messages table
    that answers with the generated id and the stored values. */
module CreateMessage {
  import opened Wrappers
  import opened Text
  import opened Bedrock
  import opened Store

  const InsertFailed: string := "502 Failed to insert message"
  const RetrieveFailed: string := "502 Failed to retrieve inserted messageID"

  /** The request is acceptable exactly when `name` has 1 to MAX_SIZE_SMALL
      bytes and `message` has 1 to MAX_SIZE_QUERY bytes. */
  predicate Acceptable(request: STable, limits: SizeLimits) {
    && 1 <= ByteLength(Get(request, "name")) <= limits.maxSizeSmall
    && 1 <= ByteLength(Get(request, "message")) <= limits.maxSizeQuery
  }

  /** validateRequest: `name` is checked first, then `message`; the first
      attribute out of bounds is the one reported. */
  function ValidateRequest(request: STable, limits: SizeLimits): (r: Outcome<Error>)
    ensures r.Pass? <==> Acceptable(request, limits)
    ensures r.Fail? && !(1 <= ByteLength(Get(request, "name")) <= limits.maxSizeSmall) ==> r.error == BadAttributeSize("name")
    ensures r.Fail? && 1 <= ByteLength(Get(request, "name")) <= limits.maxSizeSmall ==> r.error == BadAttributeSize("message")
  {
    var name := VerifyAttributeSize(request, "name", 1, limits.maxSizeSmall);
    if name.Fail? then name else VerifyAttributeSize(request, "message", 1, limits.maxSizeQuery)
  }

  /** peek: validates and asks for the write phase (false). It has no reads
      clause, so it cannot consult the store or the response. */
  function Peek(cmd: Command, db: Database, limits: SizeLimits): (r: Result<bool, Error>)
    ensures r.Success? <==> Acceptable(cmd.request, limits)
    ensures r.Success? ==> r.value == false
    ensures r.Failure? ==> Fail(r.error) == ValidateRequest(cmd.request, limits)
  {
    var v := ValidateRequest(cmd.request, limits);
    if v.Fail? then Failure(v.error) else Success(false)
  }

  /** The row a successful process appends to `table`: the next id, the
      request's name and message, and the creation time in decimal. */
  function NewRow(table: seq<Row>, request: STable, now: nat): (row: Row)
    ensures row.messageID >= 1
    ensures forall i :: 0 <= i < |table| ==> table[i].messageID < row.messageID
    ensures row.name == Get(request, "name") && row.message == Get(request, "message")
    ensures row.createdAt == Decimal(now)
  {
    Row(NextId(table), Get(request, "name"), Get(request, "message"), Decimal(now))
  }

  /** The attributes a successful process writes, by lower-cased name. */
  const StoredKeys: set<string> := {Lower("result"), Lower("messageID"), Lower("name"), Lower("message"), Lower("createdAt")}

  /** The response after a successful process: the five fields written
      over the earlier response, `messageID` being the id as read back.
      It holds exactly the earlier attributes and the five written ones. */
  function WithStored(response: STable, messageID: string, name: string, message: string, createdAt: string): (r: STable)
    ensures r.Keys == response.Keys + StoredKeys
  {
    var t1 := Set(response, "result", "stored");
    var t2 := Set(t1, "messageID", messageID);
    var t3 := Set(t2, "name", name);
    var t4 := Set(t3, "message", message);
    Set(t4, "createdAt", createdAt)
  }

  /** Each of the five written fields reads back as written. */
  lemma WithStoredFields(response: STable, messageID: string, name: string, message: string, createdAt: string)
    ensures var r := WithStored(response, messageID, name, message, createdAt);
      && Get(r, "result") == "stored"
      && Get(r, "messageID") == messageID
      && Get(r, "name") == name && Get(r, "message") == message && Get(r, "createdAt") == createdAt
  {
    assert Lower("createdAt")[0] != Lower("messageID")[0];
  }

  /** Each written attribute keeps the spelling it had in the earlier
      response, and a new one is spelled as written. */
  lemma WithStoredSpelling(response: STable, messageID: string, name: string, message: string, createdAt: string)
    ensures var r := WithStored(response, messageID, name, message, createdAt);
      && r[Lower("result")].name == WrittenSpelling(response, "result")
      && r[Lower("messageID")].name == WrittenSpelling(response, "messageID")
      && r[Lower("name")].name == WrittenSpelling(response, "name")
      && r[Lower("message")].name == WrittenSpelling(response, "message")
      && r[Lower("createdAt")].name == WrittenSpelling(response, "createdAt")
  {
    assert Lower("createdAt")[0] != Lower("messageID")[0];
  }

  /** Every other attribute of the earlier response is kept as it was. */
  lemma WithStoredKeeps(response: STable, messageID: string, name: string, message: string, createdAt: string)
    ensures var r := WithStored(response, messageID, name, message, createdAt);
      forall k :: k in response && k !in StoredKeys ==> r[k] == response[k]
  {
  }

  /** The `messageID` a successful process answers with reads back, as a
      decimal number, as the id of the row it stored. */
  lemma StoredIdReadsBack(response: STable, table: seq<Row>, request: STable, now: nat)
    ensures var row := NewRow(table, request, now);
            var id := Get(WithStored(response, Decimal(row.messageID), row.name, row.message, row.createdAt), "messageID");
      AllDigits(id) && ParseDecimal(id) == row.messageID
  {
    var row := NewRow(table, request, now);
    WithStoredFields(response, Decimal(row.messageID), row.name, row.message, row.createdAt);
    ParseDecimalOfDecimal(row.messageID);
  }

  /** process: validates before any store access, inserts one row, reads
      back the generated id, and only after both succeed fills the
      response. `now` is STimeNow(). A raised error leaves the response as
      it was; a failed id read-back comes after the insert, whose row stays
      in the (to be rolled back) transaction. */
  method Process(cmd: Command, db: Database, limits: SizeLimits, now: nat) returns (r: Outcome<Error>)
    requires db.Valid()
    modifies cmd, db
    ensures db.Valid()
    ensures !Acceptable(cmd.request, limits) ==> r == ValidateRequest(cmd.request, limits) && unchanged(db)
    ensures r.Fail? ==> cmd.response == old(cmd.response)
    ensures r == Fail(Thrown(InsertFailed)) ==> unchanged(db)
    ensures var row := NewRow(old(db.rows), cmd.request, now);
      && (r == Fail(Thrown(RetrieveFailed)) || r.Pass? ==>
            db.rows == old(db.rows) + [row] && db.lastInsertRowid == row.messageID)
      && (r.Pass? ==>
            && Acceptable(cmd.request, limits)
            && cmd.response == WithStored(old(cmd.response), Decimal(row.messageID), row.name, row.message, row.createdAt))
    ensures Acceptable(cmd.request, limits) ==> r.Pass? || r == Fail(Thrown(InsertFailed)) || r == Fail(Thrown(RetrieveFailed))
  {
    var valid := ValidateRequest(cmd.request, limits);
    if valid.Fail? {
      return valid;
    }
    var name := Get(cmd.request, "name");
    var message := Get(cmd.request, "message");
    var createdAt := Decimal(now);

    var written := db.InsertMessage(name, message, createdAt);
    if !written {
      return Fail(Thrown(InsertFailed));
    }

    var ok, result := db.ReadLastInsertRowid();
    if !ok || |result| == 0 || |result[0]| == 0 {
      return Fail(Thrown(RetrieveFailed));
    }

    cmd.response := WithStored(cmd.response, result[0][0], name, message, createdAt);
    r := Pass;
  }
}
