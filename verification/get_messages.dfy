/** The GetMessages command: a read-only, bounded, newest-first listing of
    the messages table, written into the response as a JSON array. */
module GetMessages {
  import opened Wrappers
  import opened Text
  import opened Bedrock
  import opened Store

  /** The status line raised when the listing read fails. */
  const FetchFailed: string := "502 Failed to fetch messages"

  /** The LIMIT the listing uses: 20 when the `limit` attribute is empty,
      otherwise its integer value clamped into [1, 100]. */
  function EffectiveLimit(raw: string, calc64: string -> Int64): (n: nat)
    ensures 1 <= n <= 100
    ensures raw == "" ==> n == 20
    ensures raw != "" && 1 <= calc64(raw) <= 100 ==> n == calc64(raw)
    ensures raw != "" && calc64(raw) < 1 ==> n == 1
    ensures raw != "" && calc64(raw) > 100 ==> n == 100
  {
    if raw == "" then 20
    else
      var v := calc64(raw);
      if v < 1 then 1 else if v > 100 then 100 else v
  }

  /** The attributes of one record, and those a listing writes into the
      response, by lower-cased name. */
  const RecordKeys: set<string> := {Lower("messageID"), Lower("name"), Lower("message"), Lower("createdAt")}
  const ListingKeys: set<string> := {Lower("resultCount"), Lower("messages"), Lower("format")}

  /** The record built from one result row of at least four columns: a
      fresh table holding exactly the four attributes, spelled as written. */
  function Item(row: seq<string>): (item: STable)
    requires |row| >= 4
    ensures item.Keys == RecordKeys
    ensures Get(item, "messageID") == row[0] && Get(item, "name") == row[1]
    ensures Get(item, "message") == row[2] && Get(item, "createdAt") == row[3]
    ensures Spelled(item, "messageID") && Spelled(item, "name")
    ensures Spelled(item, "message") && Spelled(item, "createdAt")
  {
    assert Lower("createdAt")[0] != Lower("messageID")[0];
    map[Lower("messageID") := Entry("messageID", row[0]), Lower("name") := Entry("name", row[1]),
        Lower("message") := Entry("message", row[2]), Lower("createdAt") := Entry("createdAt", row[3])]
  }

  /** The records of a query result, in row order, skipping rows with
      fewer than four columns. */
  function Items(result: SQResult): seq<STable> {
    if result == [] then []
    else
      var prior := Items(result[..|result| - 1]);
      var row := result[|result| - 1];
      if |row| < 4 then prior else prior + [Item(row)]
  }

  /** Each record composed as a JSON object. */
  function Composed(lib: Libstuff, items: seq<STable>): (objects: seq<string>)
    ensures |objects| == |items|
    ensures forall i :: 0 <= i < |items| ==> objects[i] == lib.composeJsonObject(items[i])
  {
    seq(|items|, i requires 0 <= i < |items| => lib.composeJsonObject(items[i]))
  }

  /** Records of a concatenation are the records of each part, in order. */
  lemma {:induction false} ItemsOfConcat(a: SQResult, b: SQResult)
    ensures Items(a + b) == Items(a) + Items(b)
    decreases |b|
  {
    if b != [] {
      var b' := b[..|b| - 1];
      assert (a + b)[..|a + b| - 1] == a + b';
      ItemsOfConcat(a, b');
    } else {
      assert a + b == a;
    }
  }

  /** A single row yields one record when it has four columns or more, none otherwise. */
  lemma ItemsOfOne(row: seq<string>)
    ensures |row| < 4 ==> Items([row]) == []
    ensures |row| >= 4 ==> Items([row]) == [Item(row)]
  {
    assert [row][..0] == [];
  }

  /** There are never more records than result rows. */
  lemma {:induction false} ItemsBounded(result: SQResult)
    ensures |Items(result)| <= |result|
    decreases |result|
  {
    if result != [] {
      ItemsBounded(result[..|result| - 1]);
    }
  }

  /** When every row has four columns, each row yields exactly one record,
      at the same position, with the fields taken from columns 0 to 3. */
  lemma {:induction false} ItemsOfFullRows(result: SQResult)
    requires forall i :: 0 <= i < |result| ==> |result[i]| >= 4
    ensures |Items(result)| == |result|
    ensures forall i :: 0 <= i < |result| ==> Items(result)[i] == Item(result[i])
    decreases |result|
  {
    if result != [] {
      var prefix := result[..|result| - 1];
      ItemsOfFullRows(prefix);
      assert Items(result) == Items(prefix) + [Item(result[|result| - 1])];
    }
  }

  /** The records a listing of `table` yields for `request`. */
  function Listing(table: seq<Row>, request: STable, lib: Libstuff): seq<STable> {
    Items(Render(Newest(table, EffectiveLimit(Get(request, "limit"), lib.calc64))))
  }

  /** The response after a successful listing of the composed records
      `objects`: the three fields written over the earlier response. It
      holds exactly the earlier attributes and the three written ones. */
  function WithListing(response: STable, objects: seq<string>, lib: Libstuff): (r: STable)
    ensures r.Keys == response.Keys + ListingKeys
  {
    var counted := Set(response, "resultCount", Decimal(|objects|));
    var listed := Set(counted, "messages", lib.composeJsonArray(objects));
    Set(listed, "format", "json")
  }

  /** resultCount is the decimal count of the records, messages their
      composed array, and format "json". */
  lemma WithListingFields(response: STable, objects: seq<string>, lib: Libstuff)
    ensures var r := WithListing(response, objects, lib);
      && Get(r, "resultCount") == Decimal(|objects|)
      && Get(r, "messages") == lib.composeJsonArray(objects)
      && Get(r, "format") == "json"
  {
  }

  /** Each written attribute keeps the spelling it had in the earlier
      response, and a new one is spelled as written. */
  lemma WithListingSpelling(response: STable, objects: seq<string>, lib: Libstuff)
    ensures var r := WithListing(response, objects, lib);
      && r[Lower("resultCount")].name == WrittenSpelling(response, "resultCount")
      && r[Lower("messages")].name == WrittenSpelling(response, "messages")
      && r[Lower("format")].name == WrittenSpelling(response, "format")
  {
  }

  /** Every other attribute of the earlier response is kept as it was. */
  lemma WithListingKeeps(response: STable, objects: seq<string>, lib: Libstuff)
    ensures var r := WithListing(response, objects, lib);
      forall k :: k in response && k !in ListingKeys ==> r[k] == response[k]
  {
  }

  /** The listing is the ORDER BY messageID DESC LIMIT answer: as many
      records as the clamped limit allows and the table holds, the i-th
      being the i-th newest row with its id in decimal. */
  lemma ListingIsNewestFirst(table: seq<Row>, request: STable, lib: Libstuff)
    requires Ascending(table)
    ensures var n := EffectiveLimit(Get(request, "limit"), lib.calc64);
            var newest := Newest(table, n);
            var items := Listing(table, request, lib);
      && |items| == |newest| == (if n < |table| then n else |table|)
      && (forall i, j :: 0 <= i < j < |newest| ==> newest[i].messageID > newest[j].messageID)
      && (forall i :: 0 <= i < |items| ==>
            && items[i].Keys == RecordKeys
            && Get(items[i], "messageID") == Decimal(newest[i].messageID)
            && Get(items[i], "name") == newest[i].name
            && Get(items[i], "message") == newest[i].message
            && Get(items[i], "createdAt") == newest[i].createdAt)
  {
    var n := EffectiveLimit(Get(request, "limit"), lib.calc64);
    NewestIsLargestDescending(table, n);
    ItemsOfFullRows(Render(Newest(table, n)));
  }

  /** Running the listing again over the same table gives the same response. */
  lemma ListingIdempotent(response: STable, objects: seq<string>, lib: Libstuff)
    ensures WithListing(WithListing(response, objects, lib), objects, lib) == WithListing(response, objects, lib)
  {
    var w := WithListing(response, objects, lib);
    WithListingFields(response, objects, lib);
    SetHeld(w, "resultCount", Decimal(|objects|));
    SetHeld(w, "messages", lib.composeJsonArray(objects));
    SetHeld(w, "format", "json");
  }

  /** The loop of buildResponse: one composed object per row of four columns or more. */
  method CollectRows(result: SQResult, lib: Libstuff) returns (rows: seq<string>)
    ensures rows == Composed(lib, Items(result))
  {
    rows := [];
    for i := 0 to |result|
      invariant rows == Composed(lib, Items(result[..i]))
    {
      assert result[..i + 1][..i] == result[..i];
      var row := result[i];
      if |row| < 4 {
        continue;
      }
      var item := Item(row);
      rows := rows + [lib.composeJsonObject(item)];
    }
    assert result[..|result|] == result;
  }

  /** buildResponse: reads the newest rows and, only if the read succeeds,
      writes resultCount, messages and format. The store is not touched. */
  method BuildResponse(cmd: Command, db: Database, lib: Libstuff) returns (r: Outcome<Error>)
    requires db.Valid()
    modifies cmd
    ensures unchanged(db)
    ensures r == Pass || r == Fail(Thrown(FetchFailed))
    ensures r.Pass? ==> cmd.response == WithListing(old(cmd.response), Composed(lib, Listing(db.rows, cmd.request, lib)), lib)
    ensures r.Fail? ==> cmd.response == old(cmd.response)
  {
    var limit: nat := 20;
    var raw := Get(cmd.request, "limit");
    if raw != "" {
      var v := lib.calc64(raw);
      limit := if v < 1 then 1 else if v > 100 then 100 else v;
    }
    assert limit == EffectiveLimit(raw, lib.calc64);
    var ok, result := db.ReadNewest(limit);
    if !ok {
      return Fail(Thrown(FetchFailed));
    }
    var rows := CollectRows(result, lib);
    assert rows == Composed(lib, Listing(db.rows, cmd.request, lib));
    cmd.response := WithListing(cmd.response, rows, lib);
    r := Pass;
  }

  /** peek: the whole listing is computed here, and the command is then
      finished (true). */
  method Peek(cmd: Command, db: Database, lib: Libstuff) returns (r: Result<bool, Error>)
    requires db.Valid()
    modifies cmd
    ensures r == Success(true) || r == Failure(Thrown(FetchFailed))
    ensures r.Success? ==> cmd.response == WithListing(old(cmd.response), Composed(lib, Listing(db.rows, cmd.request, lib)), lib)
    ensures r.Failure? ==> cmd.response == old(cmd.response)
  {
    var built := BuildResponse(cmd, db, lib);
    if built.Fail? {
      return Failure(built.error);
    }
    r := Success(true);
  }

  /** process: the same listing as peek. */
  method Process(cmd: Command, db: Database, lib: Libstuff) returns (r: Outcome<Error>)
    requires db.Valid()
    modifies cmd
    ensures r == Pass || r == Fail(Thrown(FetchFailed))
    ensures r.Pass? ==> cmd.response == WithListing(old(cmd.response), Composed(lib, Listing(db.rows, cmd.request, lib)), lib)
    ensures r.Fail? ==> cmd.response == old(cmd.response)
  {
    r := BuildResponse(cmd, db, lib);
  }
}
