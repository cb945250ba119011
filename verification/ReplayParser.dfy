/**
 What replay bytes mean: the value a header, a tick payload or an end marker
 decodes to, or the error. The C++ and the TypeScript decoder differ only in the
 errors they report, in when a log entry's length is checked, and in their
 limits; a dialect lists those. (src/replay.cpp:59-83, 97-122, 141-179, 236-328,
 353-427; js/corereplay/src/internal.)
 */
module ReplayParser {
  import opened Common
  import opened GameRules
  import opened TileCodec
  import opened Wire
  import opened ReplayFormat

  datatype ErrorCode =
    // both decoders
    | BadMagic | UnsupportedVersion | TilemapDimensionsExceedMaximum | TilemapTileCountExceedsMaximum
    | InvalidLogSourceValue | InvalidLogTypeValue | UnitCountExceedsMaximum | BulletCountExceedsMaximum
    | LogCountExceedsMaximum | LogPayloadSizeExceedsMaximum | InvalidReplayTermination | InvalidEndMarkerPayload
    | UnknownRecordType | MissingHeader | MissingEndMarker
    // TypeScript only
    | TruncatedReplay
    // C++ only
    | TruncatedInput | TruncatedHeaderPayload | TruncatedTilemapHeader | TilemapDataTruncated | TruncatedLogEntry
    | LogPayloadTruncated | TickPayloadTooSmall | TruncatedEndMarker

  /** A value and the bytes after it, or an error. */
  datatype Parsed<+T> = Ok(value: T, rest: seq<u8>) | Err(code: ErrorCode)

  /** What a decoder accepts in one tick (TickParseLimits; constants in C++). */
  datatype Limits = Limits(maxUnits: nat, maxBullets: nat, maxLogs: nat, maxLogPayload: nat)

  datatype Dialect = Dialect(
    tilemapShort: ErrorCode, tilesShort: ErrorCode, rulesShort: ErrorCode, maxDimension: nat,
    payloadShort: ErrorCode, logShort: ErrorCode, logPayloadShort: ErrorCode,
    /** Check the ten fixed bytes of a log entry before looking at any of them. */
    logHeadFirst: bool,
    limits: Limits,
    /** Bytes that must be there before an end record is read; it takes 3. */
    endAt: nat,
    /** An unknown record is an error, or else is taken for a record that has not arrived. */
    unknownFails: bool)

  const DEFAULT_LIMITS := Limits(30, 4096, 64, 512)

  const CPP := Dialect(TruncatedTilemapHeader, TilemapDataTruncated, TruncatedHeaderPayload, 512,
                       TickPayloadTooSmall, TruncatedLogEntry, LogPayloadTruncated, true,
                       DEFAULT_LIMITS, 2, false)

  /** The TypeScript decoder with the caller's limits (decoder_core.ts:34-39). */
  function Script(limits: Limits): Dialect {
    Dialect(TruncatedReplay, TruncatedReplay, TruncatedReplay, 256, TruncatedReplay, TruncatedReplay, TruncatedReplay,
            false, limits, 3, true)
  }

  const SCRIPT := Script(DEFAULT_LIMITS)

  ghost predicate EitherDecoder(d: Dialect) {
    d == CPP || d == SCRIPT
  }

  /** What a reader that returned r and has the given bytes left was asked for is p. */
  ghost predicate Delivers<T(!new)>(r: Result<T, ErrorCode>, unread: seq<u8>, p: Parsed<T>) {
    !Misdelivers(r, unread, p)
  }

  ghost predicate Misdelivers<T(!new)>(r: Result<T, ErrorCode>, unread: seq<u8>, p: Parsed<T>) {
    match p
    case Err(code) => r != Failure(code)
    case Ok(value, rest) => r != Success(value) || unread != rest
  }

  // ---- Header ----

  function GetTiles(b: seq<u8>, n: nat): seq<TileFlags>
    requires n <= |b|
  {
    seq(n, i requires 0 <= i < n => Unpack(b[i]))
  }

  function GetRules(b: seq<u8>): Rules
    requires |b| >= RULES_SIZE
  {
    Rules(b[0], b[1], b[2], b[3], b[4], b[5], b[6], b[7], b[8], b[9],
          GetU16(b[10..]), GetU16(b[12..]), GetU16(b[14..]), GetU16(b[16..]), GetU16(b[18..]), GetU16(b[20..]))
  }

  function ParseTilemap(d: Dialect, b: seq<u8>): Parsed<ReplayTilemap> {
    if |b| < 8 then Err(d.tilemapShort)
    else
      var width, height := GetU16(b), GetU16(b[2..]);
      if width > d.maxDimension || height > d.maxDimension then Err(TilemapDimensionsExceedMaximum)
      else if |b| < 8 + width * height then Err(d.tilesShort)
      else Ok(ReplayTilemap(width, height, GetU16(b[4..]), GetTiles(b[8..], width * height)), b[8 + width * height..])
  }

  /** Bytes of the header payload beyond the rules are ignored. */
  function ParseHeaderPayload(d: Dialect, version: u16, b: seq<u8>): Result<Header, ErrorCode> {
    match ParseTilemap(d, b)
    case Err(e) => Failure(e)
    case Ok(m, rest) => if |rest| < RULES_SIZE then Failure(d.rulesShort) else Success(Header(version, m, GetRules(rest)))
  }

  /** A header whose announced size is available. */
  function ParseHeader(d: Dialect, b: seq<u8>): Result<Header, ErrorCode>
    requires |b| >= 8 && |b| >= 8 + GetU16(b[6..])
  {
    if b[..4] != MAGIC then Failure(BadMagic)
    else if GetU16(b[4..]) != VERSION then Failure(UnsupportedVersion)
    else ParseHeaderPayload(d, VERSION, b[8..8 + GetU16(b[6..])])
  }

  // ---- Tick payload ----

  function GetPlayer(b: seq<u8>): ReplayPlayer
    requires |b| >= 4
  {
    ReplayPlayer(b[0], GetU16(b[1..]), b[3])
  }

  function GetUnit(b: seq<u8>): ReplayUnit
    requires |b| >= 9
  {
    ReplayUnit(b[0], b[1], b[2], b[3], b[4], b[5], b[6], GetU16(b[7..]))
  }

  function GetBullet(b: seq<u8>): ReplayBullet
    requires |b| >= 5
  {
    ReplayBullet(b[0], b[1], b[2], b[3], b[4])
  }

  function GetUnits(b: seq<u8>, n: nat): (units: seq<ReplayUnit>)
    requires |b| >= 9 * n
    ensures |units| == n
  {
    if n == 0 then [] else [GetUnit(b)] + GetUnits(b[9..], n - 1)
  }

  function GetBullets(b: seq<u8>, n: nat): (bullets: seq<ReplayBullet>)
    requires |b| >= 5 * n
    ensures |bullets| == n
  {
    if n == 0 then [] else [GetBullet(b)] + GetBullets(b[5..], n - 1)
  }

  function ParseUnits(d: Dialect, b: seq<u8>): Parsed<seq<ReplayUnit>> {
    if |b| < 2 then Err(d.payloadShort)
    else
      var n := GetU16(b);
      if n > d.limits.maxUnits then Err(UnitCountExceedsMaximum)
      else if |b[2..]| < 9 * n then Err(d.payloadShort)
      else Ok(GetUnits(b[2..], n), b[2..][9 * n..])
  }

  function ParseBullets(d: Dialect, b: seq<u8>): Parsed<seq<ReplayBullet>> {
    if |b| < 2 then Err(d.payloadShort)
    else
      var n := GetU16(b);
      if n > d.limits.maxBullets then Err(BulletCountExceedsMaximum)
      else if |b[2..]| < 5 * n then Err(d.payloadShort)
      else Ok(GetBullets(b[2..], n), b[2..][5 * n..])
  }

  function ParseLog(d: Dialect, b: seq<u8>): Parsed<LogEntry> {
    if |b| < (if d.logHeadFirst then 10 else 7) then Err(d.logShort)
    else if b[6] > 1 then Err(InvalidLogSourceValue)
    else if |b| < 8 then Err(d.logShort)
    else if b[7] > 4 then Err(InvalidLogTypeValue)
    else if |b| < 10 then Err(d.logShort)
    else
      var size := GetU16(b[8..]);
      if size > d.limits.maxLogPayload then Err(LogPayloadSizeExceedsMaximum)
      else if |b| < 10 + size then Err(d.logPayloadShort)
      else Ok(LogEntry(GetU32(b), b[4], b[5], b[6], b[7], b[10..10 + size]), b[10 + size..])
  }

  function ParseLogList(d: Dialect, b: seq<u8>, n: nat): Parsed<seq<LogEntry>> {
    if n == 0 then Ok([], b)
    else match ParseLog(d, b)
      case Err(e) => Err(e)
      case Ok(log, more) =>
        match ParseLogList(d, more, n - 1)
        case Err(e) => Err(e)
        case Ok(logs, rest) => Ok([log] + logs, rest)
  }

  function ParseLogs(d: Dialect, b: seq<u8>): Parsed<seq<LogEntry>> {
    if |b| < 2 then Err(d.payloadShort)
    else if GetU16(b) > d.limits.maxLogs then Err(LogCountExceedsMaximum)
    else ParseLogList(d, b[2..], GetU16(b))
  }

  /** Bytes of the payload beyond the logs are ignored. */
  function ParsePayload(d: Dialect, tick: u32, b: seq<u8>): Result<Tick, ErrorCode> {
    if |b| < 8 then Failure(d.payloadShort)
    else match ParseUnits(d, b[8..])
      case Err(e) => Failure(e)
      case Ok(units, b1) =>
        match ParseBullets(d, b1)
        case Err(e) => Failure(e)
        case Ok(bullets, b2) =>
          match ParseLogs(d, b2)
          case Err(e) => Failure(e)
          case Ok(logs, _) => Success(Tick(tick, GetPlayer(b), GetPlayer(b[4..]), units, bullets, logs))
  }

  // ---- End marker ----

  function ParseEnd(termination: u8, winner: u8): Result<EndMarker, ErrorCode> {
    if termination > 2 then Failure(InvalidReplayTermination)
    else if termination == 0 then
      if winner == 0 || winner > 2 then Failure(InvalidEndMarkerPayload) else Success(EndMarker(Completed, winner))
    else if winner != 0 then Failure(InvalidEndMarkerPayload)
    else Success(EndMarker(if termination == 1 then Aborted else RuleDraw, 0))
  }
}
