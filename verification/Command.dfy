/** Commands and their decoding from RESP frames. */
module Commands {
  import opened Bytes
  import opened Decimal
  import opened Resp

  type Key = Bytes

  /** `expire` is the duration of EX or PX in milliseconds; the text forms give nothing finer. */
  datatype Command =
    | Ping
    | Set(key: Key, value: Bytes, expire: Option<nat>)
    | SetPxAt(key: Key, value: Bytes, timestampMs: u64)
    | Get(key: Key)
    | Del(keys: seq<Key>)
    | Exists(key: Key)
    | Keys
    | Expire(key: Key, seconds: u64)
    | ExpireAt(key: Key, timestampMs: u64)
    | Ttl(key: Key)
    | FlushDb
    | Info
    | Unknown(name: Bytes)

  datatype KvError =
    | InvalidCommand(message: string)
    | WrongArity(command: string, expected: nat, got: nat)

  predicate IsWrite(c: Command) {
    c.Set? || c.SetPxAt? || c.Del? || c.Expire? || c.ExpireAt? || c.FlushDb?
  }

  // ------------------------------------------------------------ vocabulary

  const PING: Bytes := [80, 73, 78, 71]
  const SET: Bytes := [83, 69, 84]
  const GET: Bytes := [71, 69, 84]
  const DEL: Bytes := [68, 69, 76]
  const EXISTS: Bytes := [69, 88, 73, 83, 84, 83]
  const KEYS: Bytes := [75, 69, 89, 83]
  const EXPIRE: Bytes := [69, 88, 80, 73, 82, 69]
  const EXPIREAT: Bytes := [69, 88, 80, 73, 82, 69, 65, 84]
  const TTL: Bytes := [84, 84, 76]
  const FLUSHDB: Bytes := [70, 76, 85, 83, 72, 68, 66]
  const INFO: Bytes := [73, 78, 70, 79]
  const EX: Bytes := [69, 88]
  const PX: Bytes := [80, 88]
  const PXAT: Bytes := [80, 88, 65, 84]
  const STAR: Bytes := [42]

  // ------------------------------------------------------------- arguments

  predicate IsSpace(b: byte) {
    b == 32 || b == 9 || b == 10 || b == 12 || b == 13
  }

  /** Length of the leading run of bytes that are all spaces, or all non-spaces. */
  function RunLength(line: Bytes, spaces: bool): (n: nat)
    ensures n <= |line|
    ensures forall i :: 0 <= i < n ==> IsSpace(line[i]) == spaces
    ensures n < |line| ==> IsSpace(line[n]) != spaces
  {
    if |line| == 0 || IsSpace(line[0]) != spaces then 0 else 1 + RunLength(line[1..], spaces)
  }

  /** `split_ascii_whitespace`: the maximal runs of non-space bytes, in order. */
  function Words(line: Bytes): (words: seq<Bytes>)
    ensures forall i :: 0 <= i < |words| ==> |words[i]| > 0 && (forall b :: b in words[i] ==> !IsSpace(b))
    decreases |line|
  {
    if |line| == 0 then []
    else if IsSpace(line[0]) then Words(line[RunLength(line, true)..])
    else
      var n := RunLength(line, false);
      [line[..n]] + Words(line[n..])
  }

  function InlineArgs(line: Bytes): Result<seq<Bytes>, KvError> {
    if Words(line) == [] then Err(InvalidCommand("inline command must not be empty")) else Ok(Words(line))
  }

  function ArrayArgs(items: seq<Resp>): Result<seq<Bytes>, KvError> {
    if |items| == 0 then Ok([])
    else
      var first := items[0];
      if !first.SimpleString? && !first.BulkString? then
        Err(InvalidCommand("command arguments must be simple strings or bulk strings"))
      else
        match ArrayArgs(items[1..])
        case Err(e) => Err(e)
        case Ok(rest) => Ok([if first.SimpleString? then first.text else first.bytes] + rest)
  }

  function RespToArgs(resp: Resp): Result<seq<Bytes>, KvError> {
    match resp
    case Array(items) => ArrayArgs(items)
    case SimpleString(line) => InlineArgs(line)
    case BulkString(bytes) =>
      if ValidUtf8(bytes) then InlineArgs(bytes) else Err(InvalidCommand("inline command must be UTF-8"))
    case _ => Err(InvalidCommand("command must be a RESP array or inline string"))
  }

  function Text(arg: Bytes, what: string): (r: Result<Bytes, KvError>)
    ensures r.Ok? ==> r.value == arg && ValidUtf8(arg)
  {
    if ValidUtf8(arg) then Ok(arg) else Err(InvalidCommand(what + " must be UTF-8"))
  }

  function NumberArg(arg: Bytes, what: string): Result<u64, KvError> {
    match Text(arg, what)
    case Err(e) => Err(e)
    case Ok(text) =>
      match ParseU64(text)
      case None => Err(InvalidCommand(what + " must be a non-negative integer"))
      case Some(n) => Ok(n)
  }

  function TextArgs(args: seq<Bytes>, what: string): (r: Result<seq<Bytes>, KvError>)
    ensures r.Ok? ==> r.value == args && forall i :: 0 <= i < |args| ==> ValidUtf8(args[i])
  {
    if |args| == 0 then Ok([])
    else
      match Text(args[0], what)
      case Err(e) => Err(e)
      case Ok(first) =>
        match TextArgs(args[1..], what)
        case Err(e) => Err(e)
        case Ok(rest) => Ok([first] + rest)
  }

  // ------------------------------------------------------ one per command

  function Bare(args: seq<Bytes>, name: string, command: Command): Result<Command, KvError>
    requires |args| > 0
  {
    if |args| == 1 then Ok(command) else Err(WrongArity(name, 0, |args| - 1))
  }

  function ParseSet(args: seq<Bytes>): Result<Command, KvError>
    requires |args| > 0
  {
    if |args| != 3 && |args| != 5 then
      Err(InvalidCommand("SET expects key value or key value EX|PX duration"))
    else
      match Text(args[1], "SET key")
      case Err(e) => Err(e)
      case Ok(key) =>
        if |args| == 3 then Ok(Set(key, args[2], None)) else ParseSetExpire(key, args[2], args[3], args[4])
  }

  function ParseSetExpire(key: Key, value: Bytes, optionArg: Bytes, amountArg: Bytes): Result<Command, KvError> {
    match Text(optionArg, "SET expire option")
    case Err(e) => Err(e)
    case Ok(option) =>
      match NumberArg(amountArg, "SET expire duration")
      case Err(e) => Err(e)
      case Ok(amount) =>
        if Upper(option) == EX then Ok(Set(key, value, Some(1000 * amount)))
        else if Upper(option) == PX then Ok(Set(key, value, Some(amount)))
        else if Upper(option) == PXAT then Ok(SetPxAt(key, value, amount))
        else Err(InvalidCommand("unsupported SET expire option"))
  }

  function ParseDel(args: seq<Bytes>): Result<Command, KvError>
    requires |args| > 0
  {
    if |args| < 2 then Err(InvalidCommand("DEL expects at least one key"))
    else
      match TextArgs(args[1..], "DEL key")
      case Err(e) => Err(e)
      case Ok(keys) => Ok(Del(keys))
  }

  function ParseKeys(args: seq<Bytes>): Result<Command, KvError>
    requires |args| > 0
  {
    if |args| == 1 then Ok(Keys)
    else if |args| == 2 && args[1] == STAR then Ok(Keys)
    else Err(InvalidCommand("KEYS supports only zero arguments or '*'"))
  }

  function ParseExpire(args: seq<Bytes>): Result<Command, KvError>
    requires |args| > 0
  {
    if |args| != 3 then Err(WrongArity("EXPIRE", 2, |args| - 1))
    else
      match Text(args[1], "EXPIRE key")
      case Err(e) => Err(e)
      case Ok(key) =>
        match NumberArg(args[2], "EXPIRE seconds")
        case Err(e) => Err(e)
        case Ok(n) => Ok(Expire(key, n))
  }

  function ParseExpireAt(args: seq<Bytes>): Result<Command, KvError>
    requires |args| > 0
  {
    if |args| != 3 then Err(WrongArity("EXPIREAT", 2, |args| - 1))
    else
      match Text(args[1], "EXPIREAT key")
      case Err(e) => Err(e)
      case Ok(key) =>
        match NumberArg(args[2], "EXPIREAT timestamp_ms")
        case Err(e) => Err(e)
        case Ok(n) => Ok(ExpireAt(key, n))
  }

  /** GET, EXISTS and TTL: exactly one key. */
  function OneKey(args: seq<Bytes>, name: string): Result<Key, KvError>
    requires |args| > 0
  {
    if |args| != 2 then Err(WrongArity(name, 1, |args| - 1)) else Text(args[1], name + " key")
  }

  function ParseArgs(args: seq<Bytes>): Result<Command, KvError> {
    if |args| == 0 then Err(InvalidCommand("command array must not be empty"))
    else
      match Text(args[0], "command")
      case Err(e) => Err(e)
      case Ok(name) => Dispatch(Upper(name), args)
  }

  function Dispatch(name: Bytes, args: seq<Bytes>): Result<Command, KvError>
    requires |args| > 0
  {
    if name == PING then Bare(args, "PING", Ping)
    else if name == SET then ParseSet(args)
    else if name == GET then
      match OneKey(args, "GET") case Err(e) => Err(e) case Ok(k) => Ok(Get(k))
    else if name == DEL then ParseDel(args)
    else if name == EXISTS then
      match OneKey(args, "EXISTS") case Err(e) => Err(e) case Ok(k) => Ok(Exists(k))
    else if name == KEYS then ParseKeys(args)
    else if name == EXPIRE then ParseExpire(args)
    else if name == EXPIREAT then ParseExpireAt(args)
    else if name == TTL then
      match OneKey(args, "TTL") case Err(e) => Err(e) case Ok(k) => Ok(Ttl(k))
    else if name == FLUSHDB then Bare(args, "FLUSHDB", FlushDb)
    else if name == INFO then Bare(args, "INFO", Info)
    else Ok(Unknown(args[0]))
  }

  function FromResp(resp: Resp): Result<Command, KvError> {
    match RespToArgs(resp)
    case Err(e) => Err(e)
    case Ok(args) => ParseArgs(args)
  }

  // --------------------------------------------------------------- results

  /** Commands decoding can yield: keys and names are Rust strings, DEL has a key. */
  predicate Decodable(c: Command) {
    match c
    case Set(key, _, expire) => ValidUtf8(key)
    case SetPxAt(key, _, _) => ValidUtf8(key)
    case Del(keys) => |keys| > 0 && forall i :: 0 <= i < |keys| ==> ValidUtf8(keys[i])
    case Expire(key, _) => ValidUtf8(key)
    case ExpireAt(key, _) => ValidUtf8(key)
    case Get(key) => ValidUtf8(key)
    case Exists(key) => ValidUtf8(key)
    case Ttl(key) => ValidUtf8(key)
    case Unknown(name) => ValidUtf8(name)
    case _ => true
  }

  lemma DecodedIsDecodable(resp: Resp)
    requires FromResp(resp).Ok?
    ensures Decodable(FromResp(resp).value)
  {
    hide ValidUtf8, RespToArgs, Upper, ParseU64;
  }
}
