/** The three leaderboard endpoints (duck drop, osouji, runner):
    method dispatch, validation, the upsert and the storage-error policy. A read
    never fails visibly; a write fails visibly only for bad input (400) or a
    storage error (500); only a successful POST changes the store. */
module ScoreHandlers {
  import opened Wrappers
  import opened Text
  import opened Http
  import opened Leaderboard
  import opened Submission

  /** The key-value store as one request sees it: its contents, and whether
      its reads and writes throw. A write that throws changes nothing. */
  datatype Kv = Kv(contents: map<string, seq<Entry>>, readFails: bool, writeFails: bool)

  /** `await kv.get(key) || []` */
  function Load(kv: Kv, key: string): seq<Entry> {
    if key in kv.contents then kv.contents[key] else []
  }

  datatype Payload =
    | NoContent
    | Error(message: string)
    | Board(entries: seq<Entry>)
    | Boards(easy: seq<Entry>, normal: seq<Entry>, hard: seq<Entry>)

  datatype Reply = Reply(status: nat, payload: Payload)

  /** The reply, and the store contents after the request. */
  datatype Outcome = Outcome(reply: Reply, contents: map<string, seq<Entry>>)

  datatype Mode = Drop | Osouji | Runner

  const DropKey := "duck-drop-leaderboard"
  const RunnerKey := "duck-runner-leaderboard"

  /** The one board of the drop and runner endpoints. */
  function BoardKey(mode: Mode): string
    requires mode != Osouji
  {
    if mode == Drop then DropKey else RunnerKey
  }

  /** The key a POST writes under. */
  function PostKey(mode: Mode, body: Body): string {
    match mode
    case Drop => DropKey
    case Runner => RunnerKey
    case Osouji => KeyFor(SnapDifficulty(Field(body, "difficulty")))
  }

  /** The record a POST appends, built from the validated name and score
      and the mode's own fields. */
  function MakeRecord(mode: Mode, acc: Accepted, body: Body, date: string): Entry {
    match mode
    case Drop => DropRecord(acc, Field(body, "chains"), date)
    case Runner => RunnerRecord(acc, Field(body, "laps"), Field(body, "zone"), date)
    case Osouji => OsoujiRecord(acc, Field(body, "difficulty"), date)
  }

  /** A POST that got past validation and was persisted. */
  ghost predicate StoredUpsert(mode: Mode, body: Body, kv: Kv, date: string, o: Outcome) {
    && !body.NoBody?
    && var acc := Validate(Field(body, "name"), Field(body, "score"));
    && acc.Success?
    && var key := PostKey(mode, body);
    && var board := Upsert(Load(kv, key), MakeRecord(mode, acc.value, body, date));
    && o == Outcome(Reply(200, Board(board)), kv.contents[key := board])
  }

  /** The POST branch: destructure the body (a null body throws), check the
      name, then the score, read the board, upsert, write, answer with the
      board written. */
  function HandlePost(mode: Mode, body: Body, kv: Kv, date: string): (o: Outcome)
    ensures o.reply.status in {200, 400, 500}
    ensures o.reply.status != 200 ==> o.contents == kv.contents
    ensures o.reply.status == 200 <==> StoredUpsert(mode, body, kv, date, o)
    ensures o.reply.status == 400 <==>
      !body.NoBody? && Validate(Field(body, "name"), Field(body, "score")).Failure?
    ensures o.reply.status == 400 ==>
      o.reply.payload == Error(Message(Validate(Field(body, "name"), Field(body, "score")).error))
    ensures o.reply.status == 500 <==>
      body.NoBody? ||
      (Validate(Field(body, "name"), Field(body, "score")).Success? && (kv.readFails || kv.writeFails))
    ensures o.reply.status == 500 ==> o.reply.payload == Error(ServerError)
  {
    if body.NoBody? then Outcome(Reply(500, Error(ServerError)), kv.contents)
    else
      match Validate(Field(body, "name"), Field(body, "score"))
      case Failure(why) => Outcome(Reply(400, Error(Message(why))), kv.contents)
      case Success(acc) =>
        if kv.readFails then Outcome(Reply(500, Error(ServerError)), kv.contents)
        else
          var key := PostKey(mode, body);
          var board := Upsert(Load(kv, key), MakeRecord(mode, acc, body, date));
          if kv.writeFails then Outcome(Reply(500, Error(ServerError)), kv.contents)
          else Outcome(Reply(200, Board(board)), kv.contents[key := board])
  }

  /** Every stored board is a valid leaderboard. */
  ghost predicate ValidBoards(contents: map<string, seq<Entry>>) {
    forall k :: k in contents ==> Sorted(contents[k]) && |contents[k]| <= MaxEntries
  }

  /** The GET branch of the osouji handler: a recognised difficulty reads its
      own board; anything else, including an unrecognised label, reads all
      three. A store error gives an empty array either way. */
  function OsoujiGet(query: Value, kv: Kv): (p: Payload)
    ensures kv.readFails ==> p == Board([])
    ensures !kv.readFails && IsDifficulty(query) ==> p == Board(Load(kv, OsoujiKeyPrefix + query.s))
    ensures !kv.readFails && !IsDifficulty(query) ==>
      p == Boards(Load(kv, OsoujiKeyPrefix + Easy), Load(kv, OsoujiKeyPrefix + Normal), Load(kv, OsoujiKeyPrefix + Hard))
  {
    if kv.readFails then Board([])
    else if Truthy(query) && IsDifficulty(query) then Board(Load(kv, KeyFor(query.s)))
    else Boards(Load(kv, KeyFor(Easy)), Load(kv, KeyFor(Normal)), Load(kv, KeyFor(Hard)))
  }

  /** One request to a leaderboard endpoint. OPTIONS answers 200 with no
      body; GET always answers 200; POST answers 200, 400 or 500; any other
      method 405. Only a successful POST changes the store. */
  function Handle(mode: Mode, verb: Method, query: Value, body: Body, kv: Kv, date: string): (o: Outcome)
    ensures verb == Options ==> o.reply == Reply(200, NoContent)
    ensures verb.OtherMethod? ==> o.reply == Reply(405, Error(MethodNotAllowed))
    ensures verb == Get ==> o.reply.status == 200
    ensures verb == Get && mode != Osouji ==>
      o.reply.payload == Board(if kv.readFails then [] else Load(kv, BoardKey(mode)))
    ensures verb == Get && mode == Osouji ==> o.reply.payload == OsoujiGet(query, kv)
    ensures verb == Post ==> o == HandlePost(mode, body, kv, date)
    ensures o.contents != kv.contents ==> verb == Post && o.reply.status == 200
  {
    match verb
    case Options => Outcome(Reply(200, NoContent), kv.contents)
    case Get =>
      var payload :=
        if mode == Osouji then OsoujiGet(query, kv)
        else Board(if kv.readFails then [] else Load(kv, BoardKey(mode)));
      Outcome(Reply(200, payload), kv.contents)
    case Post => HandlePost(mode, body, kv, date)
    case OtherMethod(_) => Outcome(Reply(405, Error(MethodNotAllowed)), kv.contents)
  }

  /** A successful POST writes the board it answers with under its key,
      and that board is a valid leaderboard one longer than before until
      full. */
  lemma PostStoresBoard(mode: Mode, body: Body, kv: Kv, date: string)
    ensures var o := HandlePost(mode, body, kv, date);
      o.reply.status == 200 ==>
        && o.reply.payload.Board?
        && o.contents == kv.contents[PostKey(mode, body) := o.reply.payload.entries]
        && Sorted(o.reply.payload.entries)
        && |o.reply.payload.entries| == Min(|Load(kv, PostKey(mode, body))| + 1, MaxEntries)
  {
    var o := HandlePost(mode, body, kv, date);
    if o.reply.status == 200 {
      var acc := Validate(Field(body, "name"), Field(body, "score")).value;
      PostHappyPath(mode, body, kv, date);
      var board := Upsert(Load(kv, PostKey(mode, body)), MakeRecord(mode, acc, body, date));
      assert o.reply.payload == Board(board);
    }
  }

  /** Every request keeps every stored board a valid leaderboard. */
  lemma HandleKeepsBoardsValid(mode: Mode, verb: Method, query: Value, body: Body, kv: Kv, date: string)
    requires ValidBoards(kv.contents)
    ensures ValidBoards(Handle(mode, verb, query, body, kv, date).contents)
  {
    var o := Handle(mode, verb, query, body, kv, date);
    if o.contents != kv.contents {
      PostStoresBoard(mode, body, kv, date);
      var key := PostKey(mode, body);
      assert o.contents == kv.contents[key := o.reply.payload.entries];
    }
  }

  /** `api/drop-scores.js` */
  function HandleDrop(verb: Method, body: Body, kv: Kv, date: string): (o: Outcome)
    ensures verb == Get ==> o.reply == Reply(200, Board(if kv.readFails then [] else Load(kv, DropKey)))
    ensures verb == Post && o.reply.status == 200 ==>
      && o.reply.payload.Board?
      && o.contents == kv.contents[DropKey := o.reply.payload.entries]
      && Sorted(o.reply.payload.entries)
      && |o.reply.payload.entries| == Min(|Load(kv, DropKey)| + 1, MaxEntries)
    ensures o.contents != kv.contents ==> verb == Post && o.reply.status == 200
  {
    PostStoresBoard(Drop, body, kv, date);
    Handle(Drop, verb, Undefined, body, kv, date)
  }

  /** `api/runner-scores.js` */
  function HandleRunner(verb: Method, body: Body, kv: Kv, date: string): (o: Outcome)
    ensures verb == Get ==> o.reply == Reply(200, Board(if kv.readFails then [] else Load(kv, RunnerKey)))
    ensures verb == Post && o.reply.status == 200 ==>
      && o.reply.payload.Board?
      && o.contents == kv.contents[RunnerKey := o.reply.payload.entries]
      && Sorted(o.reply.payload.entries)
      && |o.reply.payload.entries| == Min(|Load(kv, RunnerKey)| + 1, MaxEntries)
    ensures o.contents != kv.contents ==> verb == Post && o.reply.status == 200
  {
    PostStoresBoard(Runner, body, kv, date);
    Handle(Runner, verb, Undefined, body, kv, date)
  }

  /** `api/osouji-scores.js` */
  function HandleOsouji(verb: Method, query: Value, body: Body, kv: Kv, date: string): (o: Outcome)
    ensures verb == Get ==> o.reply.status == 200 && o.reply.payload == OsoujiGet(query, kv)
    ensures verb == Post && o.reply.status == 200 ==>
      exists d :: d in Difficulties
        && o.reply.payload.Board?
        && o.contents == kv.contents[OsoujiKeyPrefix + d := o.reply.payload.entries]
    ensures verb == Post ==> o == HandlePost(Osouji, body, kv, date)
    ensures verb == Post && o.reply.status == 200 ==>
      var key := KeyFor(SnapDifficulty(Field(body, "difficulty")));
      && o.reply.payload.Board?
      && o.contents == kv.contents[key := o.reply.payload.entries]
      && Sorted(o.reply.payload.entries)
      && |o.reply.payload.entries| == Min(|Load(kv, key)| + 1, MaxEntries)
    ensures o.contents != kv.contents ==> verb == Post && o.reply.status == 200
  {
    var d := SnapDifficulty(Field(body, "difficulty"));
    assert PostKey(Osouji, body) == OsoujiKeyPrefix + d;
    PostStoresBoard(Osouji, body, kv, date);
    Handle(Osouji, verb, query, body, kv, date)
  }

  /** Every board under an osouji key holds only records of that key's difficulty. */
  ghost predicate DifficultiesMatchKeys(contents: map<string, seq<Entry>>) {
    forall d :: d in Difficulties && OsoujiKeyPrefix + d in contents ==>
      forall e :: e in contents[OsoujiKeyPrefix + d] ==> e.extra == OsoujiExtra(d)
  }

  /** The osouji handler files every record under the key of its own
      difficulty, so the three boards never mix. */
  lemma OsoujiKeepsDifficultiesApart(verb: Method, query: Value, body: Body, kv: Kv, date: string)
    requires DifficultiesMatchKeys(kv.contents)
    ensures DifficultiesMatchKeys(HandleOsouji(verb, query, body, kv, date).contents)
  {
    if verb == Post {
      OsoujiPostKeepsDifficultiesApart(body, kv, date);
    }
  }

  lemma OsoujiPostKeepsDifficultiesApart(body: Body, kv: Kv, date: string)
    requires DifficultiesMatchKeys(kv.contents)
    ensures DifficultiesMatchKeys(HandlePost(Osouji, body, kv, date).contents)
  {
    var o := HandlePost(Osouji, body, kv, date);
    if o.reply.status == 200 {
      var acc := Validate(Field(body, "name"), Field(body, "score")).value;
      var d0 := SnapDifficulty(Field(body, "difficulty"));
      var key := OsoujiKeyPrefix + d0;
      var rec := OsoujiRecord(acc, Field(body, "difficulty"), date);
      assert PostKey(Osouji, body) == key;
      PostHappyPath(Osouji, body, kv, date);
      var board := Upsert(Load(kv, key), rec);
      assert o.contents == kv.contents[key := board];
      UpsertDrawsFrom(Load(kv, key), rec);
      assert rec.extra == OsoujiExtra(d0);
      StoreOneDifficulty(kv.contents, d0, board);
    }
  }

  /** Writing a board of difficulty `d0` records under `d0`'s key keeps the
      three boards apart. */
  lemma StoreOneDifficulty(contents: map<string, seq<Entry>>, d0: string, board: seq<Entry>)
    requires DifficultiesMatchKeys(contents) && d0 in Difficulties
    requires forall e :: e in board ==> e.extra == OsoujiExtra(d0)
    ensures DifficultiesMatchKeys(contents[OsoujiKeyPrefix + d0 := board])
  {
    forall d | d in Difficulties && d != d0 ensures OsoujiKeyPrefix + d != OsoujiKeyPrefix + d0 {
      KeyForInjective(d, d0);
    }
  }

  /** The first submission to an empty duck-drop board is the whole board. */
  lemma FirstDropSubmission(date: string)
    ensures var body := Object(map["name" := Str("Taro"), "score" := Num(1500.0), "chains" := Num(3.0)]);
      var o := HandleDrop(Post, body, Kv(map[], false, false), date);
      o.reply == Reply(200, Board([Entry("Taro", 1500, DropExtra(3), date)]))
  {
    var body := Object(map["name" := Str("Taro"), "score" := Num(1500.0), "chains" := Num(3.0)]);
    var kv := Kv(map[], false, false);
    var rec := Entry("Taro", 1500, DropExtra(3), date);
    assert Field(body, "name") == Str("Taro");
    assert Field(body, "score") == Num(1500.0);
    assert Field(body, "chains") == Num(3.0);
    TaroAccepted();
    assert MakeRecord(Drop, Accepted("Taro", 1500), body, date) == rec;
    UpsertIntoEmpty(rec);
    PostHappyPath(Drop, body, kv, date);
    assert Load(kv, PostKey(Drop, body)) == [];
    assert HandlePost(Drop, body, kv, date).reply == Reply(200, Board([rec]));
    assert HandleDrop(Post, body, kv, date) == Handle(Drop, Post, Undefined, body, kv, date);
    assert Handle(Drop, Post, Undefined, body, kv, date) == HandlePost(Drop, body, kv, date);
  }

  /** A POST with a valid name and score and a working store writes and
      returns the upserted board. */
  lemma PostHappyPath(mode: Mode, body: Body, kv: Kv, date: string)
    requires !body.NoBody? && !kv.readFails && !kv.writeFails
    requires Validate(Field(body, "name"), Field(body, "score")).Success?
    ensures var acc := Validate(Field(body, "name"), Field(body, "score")).value;
      var key := PostKey(mode, body);
      var board := Upsert(Load(kv, key), MakeRecord(mode, acc, body, date));
      HandlePost(mode, body, kv, date) == Outcome(Reply(200, Board(board)), kv.contents[key := board])
  {
  }

  lemma TaroAccepted()
    ensures Validate(Str("Taro"), Num(1500.0)) == Success(Accepted("Taro", 1500))
  {
    assert !IsWS("Taro"[0]) && !AllWS("Taro");
    TrimOfTrimmed("Taro");
    assert Trim("Taro") == "Taro";
    assert CleanName("Taro") == "Taro";
    assert !NameRejected(Str("Taro"));
    assert !ScoreRejected(Num(1500.0));
    assert Floor(1500.0) == 1500;
  }

  /** The first record on an empty board is the whole board. */
  lemma UpsertIntoEmpty(rec: Entry)
    ensures Upsert([], rec) == [rec]
  {
    UpsertBelowCapacity([], rec);
    assert [][..0] + [rec] + [][0..] == [rec];
  }

  /** Two submissions, 100 then 200: the later, higher score comes first. */
  lemma HigherLaterScoreComesFirst(a: Entry, b: Entry)
    requires a.score == 100 && b.score == 200
    ensures Upsert(Upsert([], a), b) == [b, a]
  {
    UpsertIntoEmpty(a);
    SecondOnTop(a, b);
  }

  lemma SecondOnTop(a: Entry, b: Entry)
    requires a.score < b.score
    ensures Upsert([a], b) == [b, a]
  {
    UpsertBelowCapacity([a], b);
    assert CountAtLeast([a], b.score) == 0;
    assert [a][..0] + [b] + [a][0..] == [b, a];
  }
}
