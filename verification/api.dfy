/**
 * The Lichess API helpers (`api.rs` of both versions): the user records the
 * bulk user endpoint returns, the game total, the request body of a bulk
 * lookup, and the request sequence of closing an account.  The HTTP
 * transport and JSON parsing are parameters.
 */
module Api {
  import opened Wrappers
  import opened Lines
  import opened Model

  /** One rating category of a user; a missing `games` count reads as 0. */
  datatype ApiPerf = ApiPerf(games: uint32)

  /** The eleven rating categories the application adds up, each possibly absent. */
  datatype Perfs<P> = Perfs(
    chess960: Option<P>,
    atomic: Option<P>,
    racingKings: Option<P>,
    ultraBullet: Option<P>,
    blitz: Option<P>,
    kingOfTheHill: Option<P>,
    bullet: Option<P>,
    correspondence: Option<P>,
    horde: Option<P>,
    classical: Option<P>,
    rapid: Option<P>)

  type ApiPerfs = Perfs<ApiPerf>

  /** `ApiPerfs::default()`: every category absent. */
  function NoPerfs<P>(): (p: Perfs<P>)
    ensures Slots(p) == seq(11, _ => None)
  {
    Perfs(None, None, None, None, None, None, None, None, None, None, None)
  }

  /** The eleven categories in declaration order. */
  function Slots<P>(p: Perfs<P>): (s: seq<Option<P>>)
    ensures |s| == 11
  {
    [p.chess960, p.atomic, p.racingKings, p.ultraBullet, p.blitz, p.kingOfTheHill,
     p.bullet, p.correspondence, p.horde, p.classical, p.rapid]
  }

  /** `map_or(0, |p| p.games)`. */
  function GamesOf(slot: Option<ApiPerf>): uint32
  {
    if slot.Some? then slot.value.games else 0
  }

  /** The exact total over a list of categories, absent ones counting 0. */
  function Total(slots: seq<Option<ApiPerf>>): nat
  {
    if slots == [] then 0 else GamesOf(slots[0]) + Total(slots[1..])
  }

  lemma {:induction false} TotalOfNone(slots: seq<Option<ApiPerf>>)
    requires forall i :: 0 <= i < |slots| ==> slots[i] == None
    ensures Total(slots) == 0
  {
    if slots != [] {
      TotalOfNone(slots[1..]);
    }
  }

  /** `a + b` on `u32` in a release build: the sum wraps around modulo 2^32. */
  function WrappingAdd(a: uint32, b: uint32): (r: uint32)
    ensures a + b < U32_LIMIT ==> r == a + b
    ensures a + b >= U32_LIMIT ==> r == a + b - U32_LIMIT
  {
    (a + b) % U32_LIMIT
  }

  /** Adds the categories to `acc` one after the other, left to right. */
  function AddGames(acc: uint32, slots: seq<Option<ApiPerf>>): uint32
    decreases |slots|
  {
    if slots == [] then acc
    else AddGames(WrappingAdd(acc, GamesOf(slots[0])), slots[1..])
  }

  /** The left-to-right wrapping sum is the exact total reduced modulo 2^32. */
  lemma {:induction false} AddGamesIsTotal(acc: uint32, slots: seq<Option<ApiPerf>>)
    ensures AddGames(acc, slots) == (acc + Total(slots)) % U32_LIMIT
    decreases |slots|
  {
    if slots != [] {
      AddGamesIsTotal(WrappingAdd(acc, GamesOf(slots[0])), slots[1..]);
    }
  }

  /**
   * `ApiPerfs::sum_games`: the eleven `games` counts added up left to right
   * with `u32` additions, absent categories counting 0.
   */
  function SumGames(p: ApiPerfs): uint32
  {
    AddGames(0, Slots(p))
  }

  /** The game total is the exact sum of the present categories, modulo 2^32 (so exact when it fits). */
  lemma SumGamesIsTotal(p: ApiPerfs)
    ensures SumGames(p) == Total(Slots(p)) % U32_LIMIT
    ensures Total(Slots(p)) < U32_LIMIT ==> SumGames(p) == Total(Slots(p))
  {
    AddGamesIsTotal(0, Slots(p));
  }

  /** A user record as the bulk user endpoint returns it, after decoding. */
  datatype ApiUser = ApiUser(
    id: string,
    createdAt: Option<Millis>,
    seenAt: Option<Millis>,
    disabled: bool,
    perfs: ApiPerfs)

  /** A rating category as it appears in the response: the `games` field may be missing. */
  datatype JsonPerf = JsonPerf(games: Option<uint32>)

  /** A user object as it appears in the response: every field but `id` may be missing. */
  datatype JsonUser = JsonUser(
    id: string,
    createdAt: Option<Millis>,
    seenAt: Option<Millis>,
    disabled: Option<bool>,
    perfs: Option<Perfs<JsonPerf>>)

  function DecodePerf(slot: Option<JsonPerf>): (r: Option<ApiPerf>)
    ensures r.Some? <==> slot.Some?
    ensures r.Some? ==> r.value.games == slot.value.games.GetOr(0)
  {
    match slot
    case None => None
    case Some(j) => Some(ApiPerf(j.games.GetOr(0)))
  }

  /** The `#[serde(default)]` rules: a missing field takes its type's default. */
  function DecodeUser(j: JsonUser): (u: ApiUser)
    ensures u.id == j.id && u.createdAt == j.createdAt && u.seenAt == j.seenAt
    ensures u.disabled <==> j.disabled == Some(true)
    ensures j.perfs.None? ==> u.perfs == NoPerfs()
  {
    var perfs := match j.perfs
      case None => NoPerfs()
      case Some(p) =>
        Perfs(DecodePerf(p.chess960), DecodePerf(p.atomic), DecodePerf(p.racingKings),
              DecodePerf(p.ultraBullet), DecodePerf(p.blitz), DecodePerf(p.kingOfTheHill),
              DecodePerf(p.bullet), DecodePerf(p.correspondence), DecodePerf(p.horde),
              DecodePerf(p.classical), DecodePerf(p.rapid));
    ApiUser(j.id, j.createdAt, j.seenAt, j.disabled.GetOr(false), perfs)
  }

  /** A user whose response carries no `perfs` object has played no games. */
  lemma MissingPerfsMeansNoGames(j: JsonUser)
    requires j.perfs.None?
    ensures SumGames(DecodeUser(j).perfs) == 0
  {
    TotalOfNone(Slots(DecodeUser(j).perfs));
    SumGamesIsTotal(DecodeUser(j).perfs);
  }

  /** The body of the bulk user request: the names joined by commas. */
  function RequestBody(names: seq<string>): string
  {
    Join(names, ",")
  }

  /** The server reads the body back into the very names sent, when no name holds a comma. */
  lemma RequestBodyRoundTrip(names: seq<string>)
    requires |names| > 0
    requires forall i :: 0 <= i < |names| ==> ',' !in names[i]
    ensures Split(RequestBody(names), ',') == names
  {
    SplitJoin(names, ',');
  }

  /**
   * `fetch_users`: posts the body to the bulk user endpoint; `post` is the
   * HTTP round trip together with the decoding of the response.
   */
  function FetchUsers(names: seq<string>, post: string -> Result<seq<ApiUser>, string>): (r: Result<seq<ApiUser>, string>)
    ensures forall body :: body == Join(names, ",") ==> r == post(body)
  {
    post(RequestBody(names))
  }

  /** The two moderator requests that closing an account may send. */
  datatype Request =
    | CloseRequest(user: string, apiKey: string)
    | NoteRequest(user: string, apiKey: string)

  /** What a request returns: an HTTP status, or a failure before any status. */
  datatype Response = Status(code: nat) | Transport(message: string)

  datatype CloseError =
    | NoApiKey
    | CloseFailed(response: Response)
    | NoteFailed(response: Response)

  /** The outcome of `close_account` and the requests it sent, in order. */
  datatype CloseOutcome = CloseOutcome(result: Result<(), CloseError>, sent: seq<Request>)

  predicate IsOk(r: Response)
  {
    r == Status(200)
  }

  /**
   * `close_account`.  Current: refuse an empty key without sending
   * anything; send the close request and require status 200; only then
   * send the mod note and require 200 again.  Legacy: send the close
   * request only, and accept any status below 400.
   */
  function CloseAccount(version: Version, name: string, apiKey: string, send: Request -> Response): (o: CloseOutcome)
    ensures version == Current ==>
      (apiKey == [] ==> o == CloseOutcome(Err(NoApiKey), []))
      && (o.result.Ok? <==> apiKey != [] && IsOk(send(CloseRequest(name, apiKey)))
                                         && IsOk(send(NoteRequest(name, apiKey))))
      && (NoteRequest(name, apiKey) in o.sent <==> apiKey != [] && IsOk(send(CloseRequest(name, apiKey))))
      && (apiKey != [] ==> |o.sent| > 0 && o.sent[0] == CloseRequest(name, apiKey))
    ensures version == Legacy ==>
      o.sent == [CloseRequest(name, apiKey)]
      && (o.result.Ok? <==> send(CloseRequest(name, apiKey)).Status? && send(CloseRequest(name, apiKey)).code < 400)
    ensures |o.sent| <= 2
    ensures forall i :: 0 <= i < |o.sent| ==> o.sent[i].user == name && o.sent[i].apiKey == apiKey
  {
    var close := CloseRequest(name, apiKey);
    match version
    case Legacy =>
      var r := send(close);
      if r.Status? && r.code < 400 then CloseOutcome(Ok(()), [close])
      else CloseOutcome(Err(CloseFailed(r)), [close])
    case Current =>
      if apiKey == [] then CloseOutcome(Err(NoApiKey), [])
      else
        var r := send(close);
        if !IsOk(r) then CloseOutcome(Err(CloseFailed(r)), [close])
        else
          var note := NoteRequest(name, apiKey);
          var r2 := send(note);
          if IsOk(r2) then CloseOutcome(Ok(()), [close, note])
          else CloseOutcome(Err(NoteFailed(r2)), [close, note])
  }
}
