/** What a POST body must hold, and the record each game mode builds from it. */
module Submission {
  import opened Wrappers
  import opened Text
  import opened Leaderboard

  /** A field of a JSON-decoded request, as `typeof` and truthiness see it.
      A number is a real: JSON cannot encode NaN, and a number too large for
      a double, which JavaScript parses to an infinity, is kept as its exact
      value here. */
  datatype Value = Undefined | Null | Bool(b: bool) | Num(x: real) | Str(s: string) | Composite

  /** `req.body` as the handlers destructure it. */
  datatype Body =
    | NoBody                              // null or undefined: destructuring throws
    | Scalar                              // string, number, boolean or array: every field is undefined
    | Object(fields: map<string, Value>)

  function Field(body: Body, key: string): Value {
    if body.Object? && key in body.fields then body.fields[key] else Undefined
  }

  /** JavaScript truthiness. */
  predicate Truthy(v: Value) {
    match v
    case Undefined => false
    case Null => false
    case Bool(b) => b
    case Num(x) => x != 0.0
    case Str(s) => s != []
    case Composite => true
  }

  const MaxScore: int := 99999999
  const MaxNameLength: nat := 15
  const MaxZoneLength: nat := 20

  datatype Rejection = NameRequired | InvalidScore

  function Message(why: Rejection): string {
    match why
    case NameRequired => "Name is required"
    case InvalidScore => "Invalid score"
  }

  /** `!name || typeof name !== 'string' || name.trim().length === 0` */
  predicate NameRejected(name: Value) {
    !Truthy(name) || !name.Str? || |Trim(name.s)| == 0
  }

  /** `typeof score !== 'number' || score <= 0 || score > 99999999` */
  predicate ScoreRejected(score: Value) {
    !score.Num? || score.x <= 0.0 || score.x > MaxScore as real
  }

  /** The three-part name check rejects exactly what is not a string with a
      non-whitespace character. */
  lemma NameRejectedIffBlank(name: Value)
    ensures NameRejected(name) <==> !(name.Str? && !AllWS(name.s))
  {
  }

  /** A submission that passed validation, normalised. */
  datatype Accepted = Accepted(name: string, score: int)

  /** `name.trim().slice(0, 15)`: the trimmed name cut to 15 characters. */
  function CleanName(name: string): (r: string)
    ensures |r| == Min(|Trim(name)|, MaxNameLength)
    ensures r == Trim(name)[..|r|]
    ensures r == [] <==> AllWS(name)
    ensures r != [] ==> !IsWS(r[0])
  {
    Take(Trim(name), MaxNameLength)
  }

  /** `Math.floor` */
  function Floor(x: real): (n: int)
    ensures n as real <= x < n as real + 1.0
  {
    x.Floor
  }

  /** Name check, then score check, then normalisation. A rejection names
      the first field at fault; an accepted submission has the trimmed name
      cut to 15 characters, never empty, and a score in [0, 99999999] that
      is the input's floor. */
  function Validate(name: Value, score: Value): (r: Result<Accepted, Rejection>)
    ensures r == Failure(NameRequired) <==> !(name.Str? && !AllWS(name.s))
    ensures r == Failure(InvalidScore) <==>
      name.Str? && !AllWS(name.s) && !(score.Num? && 0.0 < score.x <= MaxScore as real)
    ensures r.Success? ==>
      && 1 <= |r.value.name| == Min(|Trim(name.s)|, MaxNameLength)
      && r.value.name == Trim(name.s)[..|r.value.name|]
      && 0 <= r.value.score <= MaxScore
      && r.value.score as real <= score.x < r.value.score as real + 1.0
  {
    NameRejectedIffBlank(name);
    if NameRejected(name) then Failure(NameRequired)
    else if ScoreRejected(score) then Failure(InvalidScore)
    else Success(Accepted(CleanName(name.s), Floor(score.x)))
  }

  /** A score of 0.5 passes the `score <= 0` check and is stored as 0. */
  lemma HalfPointStoredAsZero(name: Value)
    requires name.Str? && !AllWS(name.s)
    ensures Validate(name, Num(0.5)).Success?
    ensures Validate(name, Num(0.5)).value.score == 0
  {
  }

  /** Duck drop: `chains` is floored when it is a number, else 0. */
  function DropRecord(acc: Accepted, chains: Value, date: string): (e: Entry)
    ensures e.name == acc.name && e.score == acc.score && e.date == date && e.extra.DropExtra?
    ensures chains.Num? ==> e.extra.chains as real <= chains.x < e.extra.chains as real + 1.0
    ensures !chains.Num? ==> e.extra.chains == 0
  {
    Entry(acc.name, acc.score, DropExtra(if chains.Num? then Floor(chains.x) else 0), date)
  }

  /** Runner: `laps` is floored when it is a number, else 1; `zone` is the
      first 20 characters when it is a string, else empty. */
  function RunnerRecord(acc: Accepted, laps: Value, zone: Value, date: string): (e: Entry)
    ensures e.name == acc.name && e.score == acc.score && e.date == date && e.extra.RunnerExtra?
    ensures laps.Num? ==> e.extra.laps as real <= laps.x < e.extra.laps as real + 1.0
    ensures !laps.Num? ==> e.extra.laps == 1
    ensures |e.extra.zone| <= MaxZoneLength
    ensures zone.Str? ==> |e.extra.zone| == Min(|zone.s|, MaxZoneLength)
                          && e.extra.zone == zone.s[..|e.extra.zone|]
    ensures !zone.Str? ==> e.extra.zone == []
  {
    Entry(acc.name, acc.score,
          RunnerExtra(if laps.Num? then Floor(laps.x) else 1,
                      if zone.Str? then Take(zone.s, MaxZoneLength) else []),
          date)
  }

  /** Osouji difficulty labels (`VALID_DIFFS`). */
  const Easy := "かんたん"
  const Normal := "ふつう"
  const Hard := "むずかしい"
  const Difficulties: seq<string> := [Easy, Normal, Hard]

  const OsoujiKeyPrefix := "duck-osouji-lb-"

  /** `VALID_DIFFS.includes(v)` */
  predicate IsDifficulty(v: Value) {
    v.Str? && v.s in Difficulties
  }

  /** `keyFor`: the storage key of a difficulty; anything unrecognised is
      filed under "ふつう". Only three keys can come out. */
  function KeyFor(diff: string): (k: string)
    ensures k in {OsoujiKeyPrefix + Easy, OsoujiKeyPrefix + Normal, OsoujiKeyPrefix + Hard}
    ensures diff in Difficulties ==> k == OsoujiKeyPrefix + diff
    ensures diff !in Difficulties ==> k == OsoujiKeyPrefix + Normal
  {
    OsoujiKeyPrefix + (if diff in Difficulties then diff else Normal)
  }

  /** The difficulty a POST is filed under: a recognised label is kept, any
      other value becomes "ふつう". */
  function SnapDifficulty(v: Value): (d: string)
    ensures d in Difficulties
    ensures IsDifficulty(v) ==> d == v.s
    ensures !IsDifficulty(v) ==> d == Normal
  {
    if IsDifficulty(v) then v.s else Normal
  }

  /** The part of an osouji key after the prefix. */
  function KeySuffix(k: string): string
    requires |OsoujiKeyPrefix| <= |k|
  {
    k[|OsoujiKeyPrefix|..]
  }

  /** The key of a difficulty ends in that difficulty, so distinct
      difficulties never share a leaderboard. */
  lemma KeyForInjective(d1: string, d2: string)
    requires d1 in Difficulties && d2 in Difficulties
    ensures KeySuffix(KeyFor(d1)) == d1
    ensures KeyFor(d1) == KeyFor(d2) ==> d1 == d2
  {
    assert KeySuffix(KeyFor(d1)) == d1;
    assert KeySuffix(KeyFor(d2)) == d2;
  }

  /** Osouji: the record carries the snapped difficulty, "ふつう" for any
      unrecognised value. */
  function OsoujiRecord(acc: Accepted, difficulty: Value, date: string): (e: Entry)
    ensures e.name == acc.name && e.score == acc.score && e.date == date && e.extra.OsoujiExtra?
    ensures e.extra.difficulty in Difficulties
    ensures IsDifficulty(difficulty) ==> e.extra.difficulty == difficulty.s
    ensures !IsDifficulty(difficulty) ==> e.extra.difficulty == Normal
  {
    Entry(acc.name, acc.score, OsoujiExtra(SnapDifficulty(difficulty)), date)
  }
}
