# RustKV-Lab, verified

A Dafny model of RustKV-Lab, a small Redis-like store, and proofs about it. It covers the three parts that
depend on each other: the RESP codec with its incremental framing, the sharded store with expiring keys, and
the append-only log with replay, background rewrite and the locks that keep log and store together.

## How the model is laid out

- `Bytes`, `Decimal`, `Utf8`, `Resp`, `Parser`, `Encoder`, `Codec`, `Wire`, `Connection`, `Requests`: the wire format.
  `Parser.ParseResp` and `Encoder.Encode` are the specification; the cursor class `RespParser` and the growing buffer
  `Output` are proved to compute it, `Codec` proves the laws of the pair, and `Wire` says byte by byte what both are.
  `Connections.RunSession` is `read_value` called over and over, compared with `OneShot`, the parse loop over the whole
  stream; `Requests` takes pipelined requests from the sender through any chunks to their decoding.
- `Command`, `Decoding`, `Clock`, `LogCodec`, `ReplyCodec`: decoding commands, and letter for letter what decodes to
  which; stamps and deadlines, the text a command leaves in the log, and replies on the wire.
- `Reference`: a map from keys to values with deadlines that nothing ever purges. `Look` filters it by deadline
  when asked. Every store of the program is compared with it. `Laws` gives replies and effects in plain values, in
  milliseconds, seconds and bytes, and `RunLaws` over whole runs.
- `Database`, `Shards`, `Sharded`, `Snapshots`: one map, many maps behind a hash, the operations on them as classes
  that update them in place, and the snapshot. `Represents(hash, shards, store, now)` says that shards and reference
  store cannot be told apart at `now`. `Ledger`, `Runs` and `Fates` are about whole runs and about where entries go.
- `Replay`, `Recovery`, `LogText`, `Aof`: what a log is worth at a later time, the log as bytes, and the file operations over a
  file system in which any call may fail without effect. `Agreement(log, store, now, lag)` is the central relation:
  every live key is in the log with its value and a stamp that is not later than its deadline and less than two
  milliseconds and `lag` earlier, where `lag` bounds how long a relative expiry waited between log and store; every
  other key of the log has a stamp that has passed.
- `Protocol`, `Invariants`, `QuietMoves`, `LogMoves`, `ShardMoves`, `Reachability`, `Guarantees`, `Counting`, `Replies`,
  `Locks`, `LogFile`, `Alone`, `Serving`:
  the server as a state machine. Any number of tasks run logged writes, plain reads, purges and rewrites; a step is
  what happens between two lock requests, a change of a shard and the counter update for it are separate steps, time
  passes at any point, and the process may die and replay its log at any point, onto another number of shards.
  `Inv` is proved for every step and so for every reachable state; the last seven modules draw the conclusions,
  `Alone` and `Serving` that writes, rewrites, reads and KEYS can in fact be run to their ends and have then done what they
  are for.

Instants are nanoseconds on one axis, so the monotonic and the Unix clock differ by nothing; only truncation to
milliseconds tells them apart. A store operation reads the clock once, except TTL, which reads it twice, and, in the
concurrent machine, DEL, which reads it at each key, and KEYS, which reads it at each entry.

## What turned out false, and when it holds

- A restart does not restore every live key. `SET k v PX 100`, then `EXPIRE k 1000`, then a restart between the two
  deadlines loses `k` (`RaisedDeadlineLost`). `RestoredExactly` gives the condition both ways, with the clock running
  while the log is replayed: a key is live afterwards if and only if it has a SET that no DEL or FLUSHDB follows, every
  EXPIREAT since that SET was replayed before the deadline it found, and the replay ends before the last one's. With the
  clock standing still that is: no stamp since the last SET has passed (`RestoredAtStandstill`). A key whose
  deadline was never raised, and lies 2 ms and the lag ahead of the end of the replay, always comes back
  (`LateReplayComplete`).
- Encoding loses a simple string or error that contains a CR LF pair, and only those (`RoundTripExactly`). The server
  produces such a reply to a decoded command if and only if the command is an unknown one with the pair in its name
  (`ReplyCarried`), which a client can send (`ReplyLost`).
- Chunking can be seen, as in `LimitSeen`, exactly when some read leaves more than the frame limit in the buffer
  (`ChunkingIndependence`).
- A log that ends in a torn record fails to load; loading succeeds if and only if the cut is between two records
  (`TruncationExactly`).
- The log is lost in a rewrite, as in `LostLog`, exactly when every file call up to the swap works and both the swapping
  rename and the rollback rename fail (`AofEngine.Rewrite`); its content is then in the backup, which nothing reads.
- A rewrite-and-restart cycle keeps a deadline's logged millisecond exactly when the snapshot's clock is no further into its
  millisecond than the restart's was; otherwise it loses one (`CycleDrift`).
- KEYS under a moving clock need not list the live keys of any one moment (`KeysOfNoMoment`); it does if and only if it
  does not look at one key before its deadline and at another, with no earlier deadline, after that one's
  (`KeysOfOneMoment`).

## Model

| member | source | states |
|---|---|---|
| Decimal.PrintParseI64 | crates/rustkv-protocol/src/parser.rs:136-145 | decimal printing then `parse::<i64>` is the identity over all of i64, the minimum included |
| Decimal.PrintParseU64 | crates/rustkv-core/src/command.rs:161-175 | the same for the u64 arguments of commands |
| Decimal.PrintShortest | crates/rustkv-protocol/src/parser.rs:136-145 | no accepted integer text is shorter than the printed form: a `+`, leading zeros only add |
| Decimal.PrintMeans | crates/rustkv-protocol/src/encoder.rs:21-25 | a printed number is its decimal digits by place value, without a leading zero, a minus sign before them when it is negative |
| Decimal.ParseI64Exactly | crates/rustkv-protocol/src/parser.rs:136-145 | a text is an i64 if and only if it is an optional sign and at least one digit whose place value is in range, and then it is that value |
| Decimal.ParseU64Exactly | crates/rustkv-core/src/command.rs:258-262 | the same for u64 arguments, with `+` the only sign |
| Utf8.Utf8Exactly | crates/rustkv-protocol/src/parser.rs:29-39 | bytes are accepted as text if and only if they are the UTF-8 encoding of some sequence of Unicode scalar values, by the bit layout of the code points |
| Wire.WireForms | crates/rustkv-protocol/src/encoder.rs:9-45 | in byte values: 43, 45 and 58, then the text or decimal number, then 13 10; 36, the decimal length, 13 10, the bytes, 13 10; 42, the count, 13 10, the items one after the other; Null is 36 45 49 13 10 |
| Wire.Openings | crates/rustkv-protocol/src/parser.rs:16-27 | no byte is Incomplete; a byte other than those five is InvalidTypeByte of that byte; one of the five with its line not closed is Incomplete |
| Wire.TextForms | crates/rustkv-protocol/src/parser.rs:29-39 | after 43 and 45 the line up to the first 13 10 is the text, or InvalidUtf8 if it is none |
| Wire.IntegerForm | crates/rustkv-protocol/src/parser.rs:41-45 | after 58 the line is an integer or InvalidInteger |
| Wire.BulkForm | crates/rustkv-protocol/src/parser.rs:47-63 | after 36 the line is the length: -1 is Null, less is an error, otherwise so many bytes and 13 10, too large, not there yet or badly closed |
| Wire.ArrayForm | crates/rustkv-protocol/src/parser.rs:65-85 | after 42 the line is the count: -1 is Null, less is an error, otherwise so many values |
| Wire.ItemsForm | crates/rustkv-protocol/src/parser.rs:79-84 | values that stand one after the other are all returned in order, or the first error among them |
| Wire.PingRequest | crates/rustkv-protocol/src/parser.rs:16-27 | the fourteen bytes a client sends for PING are the array of that one bulk string |
| Parser.FirstPair | crates/rustkv-protocol/src/parser.rs:97-111 | the position found holds a CR LF pair and none lies between the start and it; nothing is found exactly when there is no pair |
| Parser.RespParser.ReadLineAtCursor | crates/rustkv-protocol/src/parser.rs:97-111 | the scanning loop finds the first CR LF, moves the cursor past it, and answers Incomplete when there is none |
| Parser.RespParser.ReadBulkAtCursor | crates/rustkv-protocol/src/parser.rs:113-134 | counted bytes: overflow, too little input, missing terminator and success, in that order |
| Parser.RespParser.ParseBulkString | crates/rustkv-protocol/src/parser.rs:47-63 | minus one is Null, lower lengths are format errors, otherwise the counted bytes |
| Parser.RespParser.ParseArrayAtCursor | crates/rustkv-protocol/src/parser.rs:65-85 | the pushing loop returns the declared number of values in order, stops at the first error, and ends for every declared length |
| Parser.RespParser.ParseNext | crates/rustkv-protocol/src/parser.rs:16-27 | the recursive descent computes the specified frame or error, which the `Wire` rows give byte by byte, and leaves the cursor where the frame ends |
| Parser.ParseRespBytes | crates/rustkv-protocol/src/parser.rs:4-8 | one frame from the start of the input with the bytes it took, as the `Wire` rows give it |
| Encoder.EncodeInto | crates/rustkv-protocol/src/encoder.rs:9-45 | appends exactly the encoding of the value, whose bytes `Wire.WireForms` gives, and changes nothing already written |
| Encoder.EncodeItems | crates/rustkv-protocol/src/encoder.rs:33-40 | the element loop appends the encodings in order |
| Encoder.EncodeResp | crates/rustkv-protocol/src/encoder.rs:3-7 | a fresh buffer with exactly the encoding, whose bytes `Wire.WireForms` gives |
| Codec.ParseValueAgrees | crates/rustkv-protocol/src/parser.rs:16-134 | an answer of the parser other than Incomplete survives any more input at any nesting depth, and a frame that ends within a prefix is the prefix's frame |
| Codec.PrefixStability | crates/rustkv-protocol/src/parser.rs:4-134 | a frame, or any error but Incomplete, is the answer on every extension of the input |
| Codec.PrefixFree | crates/rustkv-protocol/src/parser.rs:4-134 | a frame depends only on its own bytes, and every strict prefix of them is Incomplete |
| Codec.RoundTrip | crates/rustkv-protocol/src/encoder.rs:9-45 | for values of any nesting whose simple strings and errors hold no CR LF pair, parsing the encoding with anything after it returns the value and consumes exactly the encoding |
| Codec.RoundTripExactly | crates/rustkv-protocol/src/encoder.rs:11-20 | the encoding parses back to the value if and only if no line text holds a CR LF pair |
| Codec.AcceptedValue | crates/rustkv-protocol/src/parser.rs:29-85 | every accepted frame meets the round trip's condition, its re-encoding is no longer than the bytes consumed, and it has at most a third as many nodes as bytes |
| Codec.Canonicalisation | crates/rustkv-protocol/src/parser.rs:47-85 | re-encoding an accepted frame and parsing again gives the same frame and never more bytes: signs, leading zeros and `*-1` normalise |
| Codec.EncodeInjective | crates/rustkv-protocol/src/encoder.rs:9-45 | different accepted frames have different encodings |
| Codec.SizeBound | crates/rustkv-protocol/src/parser.rs:65-111 | a frame with m nodes consumes at least 3m bytes |
| Connections.Connection.ReadValue | crates/rustkv-server/src/connection.rs:26-75 | the buffer loop gives the specified outcome, buffer and unread input, and no byte is lost, duplicated or reordered |
| Connections.ReadConserves | crates/rustkv-server/src/connection.rs:37-38 | frame, buffer and unread chunks together are always the bytes received and to come |
| Connections.SessionIsRepeatedRead | crates/rustkv-server/src/connection.rs:26-75 | a whole session is the first read followed by the session of what it left |
| Connections.OneShotConserves | crates/rustkv-server/src/connection.rs:26-40 | frames plus remainder are the stream |
| Connections.SessionMatchesOneShot | crates/rustkv-server/src/connection.rs:26-75 | under any chunking and limit the frames are the first ones of the one-shot loop, and all of them with the same end unless the limit struck |
| Connections.ChunkingIndependence | crates/rustkv-server/src/connection.rs:26-75 | a session reports the frames and the end of the one-shot loop if no read leaves more than the limit buffered, and ends in the size error if and only if one does |
| Connections.ChunkingsAgree | crates/rustkv-server/src/connection.rs:49-73 | two chunkings of one stream within the limit give the same frames and the same end |
| Connections.LimitSeen | crates/rustkv-server/src/connection.rs:68-73 | the same bytes in two reads give two frames, in one read the size error |
| Connections.FramesParse | crates/rustkv-server/src/server.rs:351-353 | every frame a session returns, under any chunking, parses again on its own to its last byte and is within the limit |
| Connections.StreamEnds | crates/rustkv-server/src/connection.rs:26-75 | what is left of a stream never parses; the end is a clean close exactly with nothing left, an unexpected end exactly with a frame begun and not ended, else the parser's error; every frame parses to its last byte |
| Requests.ValuesArrive | crates/rustkv-server/src/connection.rs:26-75 | any values without a CR LF pair in a line text, pipelined over any chunks within the limit, arrive as one frame each, in order, and parse back, and the stream closes cleanly |
| Requests.RequestsArrive | crates/rustkv-server/src/server.rs:248-270 | any lists of arguments sent as arrays of bulk strings arrive one by one and each is decoded from exactly its arguments |
| Commands.DecodedIsDecodable | crates/rustkv-core/src/command.rs:48-175 | whatever decodes to a command has UTF-8 keys or name, and a DEL has at least one key; what decodes to which command is in the `Decoding` rows |
| Decoding.UpperExactly | crates/rustkv-core/src/command.rs:58 | two names have one upper-case form if and only if they differ at most in the case of ASCII letters, stated on byte ranges |
| Decoding.FrameForms | crates/rustkv-core/src/command.rs:194-236 | an array is decoded from its arguments if and only if all are simple or bulk strings, an inline text from its words, if it has any and is UTF-8 |
| Decoding.OtherFrames | crates/rustkv-core/src/command.rs:207-209 | integers, errors and Null are no commands |
| Decoding.WordsExactly | crates/rustkv-core/src/command.rs:223-236 | words joined by any blanks, with blanks around them, are the words of the line: all of them, whole, in order |
| Decoding.BareCommands | crates/rustkv-core/src/command.rs:77-80 | PING, FLUSHDB and INFO in any letter case, alone, are those commands, with arguments an arity error |
| Decoding.KeyCommands | crates/rustkv-core/src/command.rs:118-123 | GET, EXISTS and TTL in any letter case with one UTF-8 key are those commands of that key, each its own; else the arity or key error |
| Decoding.SetForms | crates/rustkv-core/src/command.rs:82-116 | SET decodes if and only if it has a UTF-8 key, a value, and nothing or one of EX, PX, PXAT in any letter case with a u64: EX gives 1000 times as many milliseconds, PX as many, PXAT that stamp |
| Decoding.PrintedForms | crates/rustkv-core/src/command.rs:82-175 | with a printed number n: EX is 1000 n milliseconds, PX n, PXAT and EXPIREAT the stamp n, EXPIRE n seconds |
| Decoding.DelForm | crates/rustkv-core/src/command.rs:125-138 | DEL decodes if and only if it has at least one key and all are UTF-8, and then to all of them in order |
| Decoding.KeysForm | crates/rustkv-core/src/command.rs:147-159 | KEYS decodes if and only if it stands alone or with `*` |
| Decoding.ExpireForms | crates/rustkv-core/src/command.rs:161-175 | EXPIRE and EXPIREAT decode if and only if they have a UTF-8 key and a u64, each to its own command |
| Decoding.UnknownForm | crates/rustkv-core/src/command.rs:57-73 | any other UTF-8 name is the unknown command of that name as spelled; a name that is not UTF-8, and no name, are errors |
| Decoding.SpelledAlike | crates/rustkv-core/src/command.rs:57-73 | names that differ only in the case of ASCII letters give one result for the same arguments, command or error, but for the spelling an unknown command keeps |
| LogCodec.LoggedArgsDecode | crates/rustkv-server/src/aof.rs:198-244 | the arguments logged for a write command decode to it with its relative expiry made absolute |
| LogCodec.LoggedCommandRoundTrip | crates/rustkv-server/src/aof.rs:198-279 | log, parse and decode give the absolute form of the command back and end where the record ends, whatever follows |
| LogCodec.LoggedExactlyWrites | crates/rustkv-server/src/server.rs:358-368 | a command has a log record if and only if `is_write_command` accepts it |
| LogCodec.AbsoluteBytesTimeless | crates/rustkv-server/src/aof.rs:210-220 | a record of an absolute command is the same at any time |
| LogCodec.AbsoluteForms | crates/rustkv-server/src/aof.rs:198-244 | the arguments of each record in byte values: SET with key, value and PXAT with the printed stamp, DEL with the keys, EXPIREAT with the printed stamp, FLUSHDB |
| LogCodec.RelativeForms | crates/rustkv-server/src/aof.rs:198-279 | EX, PX and EXPIRE are logged as the millisecond they end in, saturating at the largest u64 |
| ReplyCodec.ReplyCarried | crates/rustkv-core/src/executor.rs:8-108 | the reply to a decoded command parses back as it was given if and only if the command is not an unknown one with a CR LF pair in its name |
| ReplyCodec.ReplyLost | crates/rustkv-core/src/command.rs:72 | such a name arrives in a bulk string, decodes, and its reply is not carried |
| Clock.StampDeadlineExact | crates/rustkv-core/src/db.rs:557-569 | a stamp still ahead becomes a deadline within the stamp's own millisecond, at the clock's offset into it |
| Clock.LoggedStampNotLater | crates/rustkv-server/src/aof.rs:272-279 | the stamp logged for a relative expiry is never later than the deadline execution installs afterwards |
| Clock.SnapshotStampBounds | crates/rustkv-core/src/db.rs:489-515 | a snapshot's stamp is at the deadline's millisecond or one below, never above |
| Clock.DriftBound | crates/rustkv-core/src/db.rs:557-582 | through snapshot, log and replay a deadline moves by more than -2 ms and less than +1 ms |
| Clock.DelayedDrift | crates/rustkv-core/src/db.rs:493-515 | with the two clocks read one after the other, in a snapshot and when a stamp is applied, the upper bound grows by the two delays and the lower bound stays |
| Clock.CycleDrift | crates/rustkv-core/src/db.rs:493-515 | a rewrite-and-restart cycle keeps the stamp exactly when the snapshot's clock is no further into its millisecond than the restart's, else lowers it by one |
| Clock.CyclesDrift | crates/rustkv-core/src/db.rs:489-515 | over k cycles the stamp never rises and falls by at most k |
| Reference.SameReply | crates/rustkv-core/src/executor.rs:8-108 | stores that look alike give equal replies to every command |
| Reference.SameNext | crates/rustkv-core/src/db.rs:55-198 | stores that look alike still do after the same command |
| Laws.ReplyAnswers | crates/rustkv-core/src/executor.rs:8-138 | every reply in plain values: PONG, OK and the unknown-command text as bytes; GET the value or Null; EXISTS, EXPIRE and EXPIREAT 1 exactly on a live key, else 0; DEL the number of distinct live keys listed; TTL -2, -1 or the least number of seconds that covers the time left; KEYS the live keys as bulk strings in ascending order |
| Laws.AsI64Exactly | crates/rustkv-core/src/executor.rs:54 | `as i64` keeps every number that fits and is congruent modulo 2^64 for all |
| Laws.RelativeEffects | crates/rustkv-core/src/db.rs:92-162 | what is at the key later: after SET the value until as many milliseconds have passed, after EXPIRE of a live key its value until as many seconds have, the instant of the deadline not included |
| Laws.AbsoluteEffects | crates/rustkv-core/src/db.rs:55-88 | after PXAT and EXPIREAT: nothing if the stamp is reached, else the value until a deadline in the stamp's millisecond, as far into it as the clock was |
| Laws.OtherEffects | crates/rustkv-core/src/db.rs:110-191 | DEL and FLUSHDB leave nothing at their keys, and no command changes a key it does not touch |
| Laws.SetThenGet | crates/rustkv-core/src/executor.rs:15-46 | after SET, GET answers that value until the deadline and Null from then on |
| Laws.ExpireThenTtl | crates/rustkv-core/src/executor.rs:77-108 | after EXPIRE of a live key, TTL answers what is left of those seconds, rounded up, and -2 once they have passed |
| Laws.GoneAfter | crates/rustkv-core/src/executor.rs:47-114 | after DEL, EXISTS answers 0 and GET Null; after FLUSHDB, KEYS answers the empty array |
| Databases.DeletionInvisible | crates/rustkv-core/src/db.rs:46-53 | lazy and eager deletion leave what is seen unchanged, at that moment and at every later one |
| Databases.Database.SetAtMs | crates/rustkv-core/src/db.rs:55-71 | a stamp already reached removes the key, any other stores the value with that deadline |
| Databases.Database.Get | crates/rustkv-core/src/db.rs:102-108 | answers the live value and drops the key if it has expired |
| Databases.Database.Del | crates/rustkv-core/src/db.rs:110-124 | counts the distinct live keys listed, a repeated key once, and removes every listed key |
| Databases.Database.Keys | crates/rustkv-core/src/db.rs:134-149 | exactly the live keys, each once, ascending by the byte at the first difference |
| Databases.Database.Expire | crates/rustkv-core/src/db.rs:151-162 | true exactly on a live key, whose deadline alone changes |
| Databases.Database.ExpireAtMs | crates/rustkv-core/src/db.rs:73-88 | true exactly on a live key; a stamp already reached removes it |
| Databases.Database.Ttl | crates/rustkv-core/src/db.rs:164-186 | -2 without a live key, -1 without a deadline, else the least number of seconds that covers the nanoseconds left; a deadline reached between the two clock reads counts as reached |
| Databases.Database.RemoveExpired | crates/rustkv-core/src/db.rs:193-197 | removes exactly the expired entries and returns their number |
| Databases.DbRefines | crates/rustkv-core/src/db.rs:91-198 | with lazy deletions and purges, a command on one map is one step of the reference store |
| Shards.VisitRefines | crates/rustkv-core/src/db.rs:261-314 | what one shard visit does, to the whole store of any number of shards, is the reference step for that key, and keys stay where they are routed |
| Shards.DelVisitsRefine | crates/rustkv-core/src/db.rs:316-349 | the key-by-key visits of a DEL over several shards remove exactly the listed keys |
| Shards.PurgeAllRefines | crates/rustkv-core/src/db.rs:473-487 | a purge of all shards cannot be seen |
| Shards.ShardedRefines | crates/rustkv-core/src/db.rs:235-487 | every command over any number of shards is one step of the reference store |
| Shards.RepresentsLater | crates/rustkv-core/src/entry.rs:23-26 | shards that look like a store look like it at every later time |
| Shards.GatheredAll | crates/rustkv-core/src/db.rs:367-378 | the live keys gathered shard by shard are those of the whole store, each once, and sorting gives the ascending list of them |
| Bytes.LexLessExactly | crates/rustkv-core/src/db.rs:147 | one key comes before another if and only if at the first place they differ it ends or has the smaller byte |
| Shards.RouteShared | crates/rustkv-core/src/db.rs:527-531 | two keys share a shard if and only if their hashes differ by a multiple of the number of shards |
| Snapshots.RenderSorts | crates/rustkv-core/src/db.rs:508-518 | entries of the live keys sorted by key are the snapshot, which `Snapshots.SnapshotExactly` describes, in whatever order the maps gave them |
| Snapshots.SnapshotExactly | crates/rustkv-core/src/db.rs:489-525 | a snapshot has one entry for each live key and no other, in ascending order of keys by first difference, with its value, no stamp without a deadline, and else a stamp less than two milliseconds below it |
| Sharded.ShardedDatabase.constructor | crates/rustkv-core/src/db.rs:236-247 | empty shards, at least one of them, and a counter of zero |
| Sharded.ShardedDatabase.ApplyLenChange | crates/rustkv-core/src/db.rs:533-544 | adds the change of length, the subtraction saturating at zero |
| Sharded.ShardedDatabase.Set | crates/rustkv-core/src/db.rs:261-281 | purges the key's shard, stores the value, counts the purged entries, keeps the counter exact and every other shard as it was |
| Sharded.ShardedDatabase.SetAtMs | crates/rustkv-core/src/db.rs:283-298 | the same with an absolute deadline, which when past removes the key |
| Sharded.ShardedDatabase.Get | crates/rustkv-core/src/db.rs:300-314 | the value of the live key, the shard without it if expired, the expired count |
| Sharded.ShardedDatabase.Exists | crates/rustkv-core/src/db.rs:351-365 | presence of the live key and the same effects |
| Sharded.ShardedDatabase.Expire | crates/rustkv-core/src/db.rs:380-394 | the relative deadline on a live key, effects and counts |
| Sharded.ShardedDatabase.ExpireAtMs | crates/rustkv-core/src/db.rs:396-410 | the absolute deadline on a live key; one removed by a past stamp counts as expired |
| Sharded.ShardedDatabase.Ttl | crates/rustkv-core/src/db.rs:412-426 | -2 without a live key, -1 without a deadline, else the least number of seconds that covers the time left, with the same effects and counts |
| Sharded.ShardedDatabase.Del | crates/rustkv-core/src/db.rs:316-349 | the loop over keys and shards returns the number of distinct live keys listed and leaves the store without any listed key |
| Sharded.ShardedDatabase.Keys | crates/rustkv-core/src/db.rs:367-378 | exactly the live keys of all shards, each once, ascending by the byte at the first difference, changing nothing |
| Sharded.ShardedDatabase.FlushDb | crates/rustkv-core/src/db.rs:428-449 | every shard empty and the counter zero |
| Sharded.ShardedDatabase.RemoveExpired | crates/rustkv-core/src/db.rs:473-487 | every shard purged, with the number of entries removed |
| Sharded.ShardedDatabase.SnapshotEntries | crates/rustkv-core/src/db.rs:489-525 | one entry for each live key and no other, ascending by the byte at the first difference, with its value and a stamp less than two milliseconds below its deadline, after a purge at the same instant |
| Sharded.ExecuteCommand | crates/rustkv-core/src/executor.rs:8-138 | the reply of the reference store, given in plain values by `Laws.Answers` (PONG, OK, the value, 1 and 0, the count, the seconds, the ascending keys), and the shards of the sharded step, for every command |
| Runs.ShardedRunRefines | crates/rustkv-core/src/db.rs:235-525 | every run of commands, purges and snapshots over any number of shards gives the reference store's replies |
| Runs.DatabaseRunRefines | crates/rustkv-core/src/db.rs:91-198 | so does every run over a single `Database` |
| Runs.ShardingInvisible | crates/rustkv-core/src/db.rs:527-531 | from empty, every shard count, hash and run gives the replies of one `Database`, INFO excepted |
| Runs.PurgesInvisible | crates/rustkv-server/src/ttl.rs:27-30 | two runs that differ only in where purges, INFOs and snapshots stand give the same replies |
| RunLaws.RunReply | crates/rustkv-core/src/executor.rs:8-131 | in a run on the shards one more command adds one reply, given on the shards the run has left |
| RunLaws.SetSeenInRun | crates/rustkv-core/src/executor.rs:15-46 | in any run on any number of shards, whatever came before and whatever is done to other keys and purged in between, GET answers the value of the SET until its deadline and Null from then on |
| Runs.RunConserves | crates/rustkv-core/src/db.rs:261-487 | over any run, the total of entries at the end plus all that was booked as leaving is the total at the start plus all booked as stored |
| Ledger.FatesDescribe | crates/rustkv-core/src/db.rs:55-124 | an entry is in its shard after a visit, with its value, exactly when its fate says kept; nothing appears but a stored key |
| Ledger.CountsAreFates | crates/rustkv-core/src/db.rs:261-410 | the reported expired and deleted counts of a visit are the numbers of entries with those fates, each entry under one head |
| Ledger.VisitConserves | crates/rustkv-core/src/db.rs:261-426 | the length of a shard after a visit, computed from its own counts, balances |
| Ledger.CommandConserves | crates/rustkv-core/src/db.rs:261-487 | the totals balance over all shards for every command; what the heads of the books count is in `Fates.EventAccounted` |
| Ledger.DelBooksLiveKeys | crates/rustkv-core/src/db.rs:316-349 | a DEL counts as deleted exactly the distinct live keys it lists, duplicates once |
| Fates.TotalCounts | crates/rustkv-core/src/db.rs:253-255 | the lengths of routed shards add up to the number of distinct keys stored |
| Fates.EventAccounted | crates/rustkv-core/src/db.rs:261-525 | every command, purge and FLUSHDB does to every entry of every shard what its fate says: kept as it was but for the deadline an EXPIRE or EXPIREAT sets, overwritten by the SET that names it, or gone, an expired one too unless that SET stores its key; what a SET stores is there and nothing else is new; and each count is the number of entries with that fate |
| Fates.FateReasons | crates/rustkv-core/src/db.rs:46-198 | why an entry leaves: deleted exactly by a DEL that lists it live, flushed exactly by FLUSHDB, displaced exactly by a SET of it with a stamp reached, overwritten exactly by a SET that stores, and expired only past its deadline or by an EXPIREAT with a stamp reached |
| Fates.ArrivalsStored | crates/rustkv-core/src/db.rs:261-298 | an entry counted as stored anew is the one the SET names, with its value and deadline |
| Fates.RunAccounted | crates/rustkv-core/src/db.rs:261-525 | over any run every event does what the fates of its entries say, and each head of the books is the number of entries that left with that fate, each counted once at the event it left in |
| Replay.AgreementStep | crates/rustkv-server/src/server.rs:272-285 | logging a write and executing it up to `lag` later keeps log and store in agreement on both sides of every deadline, for every write command |
| Replay.AgreementLater | crates/rustkv-core/src/entry.rs:23-26 | agreement survives the passing of time |
| Replay.AgreementWider | crates/rustkv-server/src/server.rs:276-282 | agreement within a lag is agreement within a longer one |
| Replay.HistoryAgrees | crates/rustkv-server/src/aof.rs:29-37 | any logged and executed history on a store that agreed with its log leaves both in agreement, within the longest wait between log and execution |
| Replay.SnapshotAgrees | crates/rustkv-server/src/aof.rs:125-140 | the log written from a snapshot agrees with the store with no lag, so to within two milliseconds, and holds absolute commands only |
| Replay.SnapshotLogExactly | crates/rustkv-server/src/aof.rs:246-262 | the log written from a snapshot has one command for each live key, in ascending order, and no other: a plain SET of its value without a deadline, else one with a stamp less than two milliseconds below it |
| Replay.ReplayCharacterised | crates/rustkv-server/src/aof.rs:281-321 | what a replay over a running clock restores, key by key: value, the latest stamp's millisecond, and nothing with a stamp passed before it began |
| Replay.ReplayAgrees | crates/rustkv-server/src/aof.rs:78-108 | the replayed store agrees with the log it came from with no lag, so a restart starts over |
| Recovery.LateReplaySound | crates/rustkv-server/src/aof.rs:78-108 | a later replay brings back no key that was not live at the crash and still live when it began and no other value, and moves the live deadline by more than -(2 ms + lag) and less than +1 ms |
| Recovery.LateReplayComplete | crates/rustkv-core/src/db.rs:55-88 | a live key comes back, with value and deadline within that drift, if no stamp has passed by the end of the replay, and also if its deadline was never raised and lies 2 ms and the lag beyond that end |
| Recovery.RestoredExactly | crates/rustkv-core/src/db.rs:55-88 | under a running clock a key is live after the replay if and only if it has a SET that no DEL or FLUSHDB follows, each EXPIREAT since was replayed before the deadline it found and the last deadline is still ahead; its value and deadline exactly |
| Recovery.RestoredAtStandstill | crates/rustkv-core/src/db.rs:55-88 | with the clock standing still during the replay, a live key is restored if and only if none of the stamps logged since its last SET has passed |
| Recovery.NeverRaisedIsLowest | crates/rustkv-core/src/db.rs:73-88 | for a key whose deadline was never raised the last stamp is the lowest, so only the present deadline matters |
| Recovery.RaisedDeadlineLost | crates/rustkv-server/src/aof.rs:294 | a raised deadline, a restart between the two deadlines, and a live key is gone |
| Recovery.SnapshotTrip | crates/rustkv-core/src/db.rs:489-525 | snapshot, log and replay of a whole store: nothing else comes back, every key well ahead does, each deadline moves by more than -2 ms and less than +1 ms |
| Recovery.TripStamps | crates/rustkv-core/src/db.rs:489-515 | a restart and a rewrite of the restored store invent no key or value, and each logged stamp stays or falls by one |
| Recovery.TripsStamps | crates/rustkv-core/src/db.rs:489-515 | over k restarts and rewrites of whole stores each logged stamp never rises and falls by at most k |
| Recovery.TripKeeps | crates/rustkv-core/src/db.rs:489-525 | one restart and rewrite keep every key whose stamps lie more than the remaining cycles ahead |
| Recovery.TripsKeep | crates/rustkv-core/src/db.rs:489-525 | over k restarts and rewrites every key whose stamps lie more than k milliseconds beyond the last rewrite is still in the log |
| LogText.AppendedRecord | crates/rustkv-server/src/aof.rs:29-37 | what an append adds is the record of the command's absolute form |
| LogText.RecordReads | crates/rustkv-server/src/aof.rs:90-104 | a record followed by anything parses to its command and ends where it ends |
| LogText.DecodeWhole | crates/rustkv-server/src/aof.rs:88-107 | reading a whole log gives its commands and succeeds |
| LogText.TruncatedLog | crates/rustkv-server/src/aof.rs:88-107 | a log cut at any byte gives exactly the commands wholly before the cut, and success exactly between records |
| LogText.TruncationExactly | crates/rustkv-server/src/aof.rs:90-95 | reading a cut log succeeds if and only if the cut is at the end of some number of whole records |
| LogText.WholeBeforeFits | crates/rustkv-server/src/aof.rs:88-107 | the number of records wholly before a cut is the largest whose bytes fit |
| LogText.DecodeExactly | crates/rustkv-server/src/aof.rs:88-107 | for any bytes: the commands read stand one after the other from the start, and reading stops at the end, which is success, or at the first frame that does not parse or is no command, which is failure |
| Aof.AofEngine.constructor | crates/rustkv-server/src/aof.rs:19-27 | opening leaves an existing log as it is, creates an empty one where there is none, and fails exactly if the call does |
| Aof.AofEngine.Append | crates/rustkv-server/src/aof.rs:29-37 | a write adds its whole record or nothing, with the file open exactly if its call works; it fails while the file is closed, and nothing else is logged |
| Aof.AofEngine.WriteRewriteFile | crates/rustkv-server/src/aof.rs:125-140 | the temporary file holds the encoded snapshot exactly if none of its calls fails, and the log is untouched at every step |
| Aof.AofEngine.SwapOrRestore | crates/rustkv-server/src/aof.rs:166-171 | after a failed second rename the old log is back unless the rollback failed too; it is off the path exactly if those two calls fail, and then in the backup |
| Aof.AofEngine.ReplaceFile | crates/rustkv-server/src/aof.rs:158-178 | at every step the path or the backup holds a complete old or new log, and at the end the path does unless both renames failed |
| Aof.AofEngine.Rewrite | crates/rustkv-server/src/aof.rs:53-76 | under any pattern of failing calls: complete log on the path or the backup at every step, and on the path at return unless the log is lost, which happens exactly if all calls up to the swap work and the swap and its rollback fail, and leaves the old log in the backup; success exactly when nothing failed |
| Aof.LostLog | crates/rustkv-server/src/aof.rs:53-76 | a SET is logged, a rewrite meets those two failures, and the engine goes on with an empty log while the SET's record is in the backup alone |
| Aof.ReplayCommand | crates/rustkv-server/src/aof.rs:281-321 | a replayed write is the sharded step of that command; other commands are passed over |
| Aof.ReplayBytes | crates/rustkv-server/src/aof.rs:88-107 | the loop applies exactly the commands that read from the file, in order, each at its own clock reading, and succeeds exactly if the file reads to its end |
| Aof.LoadAndReplay | crates/rustkv-server/src/aof.rs:78-108 | only the log path is read; a missing log is an empty one; a failed read leaves the store alone |
| Aof.ReplayShardsRefine | crates/rustkv-server/src/aof.rs:78-108 | replay into any number of shards represents the replayed reference store |
| Invariants.InitialInv | crates/rustkv-core/src/db.rs:236-247 | a fresh server meets the invariant |
| QuietMoves.AcquireExcludes | crates/rustkv-server/src/server.rs:274-275 | granting a lock only when nobody holds it against the task keeps mutual exclusion |
| QuietMoves.BeginInv | crates/rustkv-server/src/server.rs:264-290 | starting a command, replying, checking the log's size and a failed append keep the invariant |
| QuietMoves.AcquireInv | crates/rustkv-server/src/server.rs:273-275 | every granted lock keeps the invariant, an export's instant being fixed under the global lock |
| LogMoves.AppendInv | crates/rustkv-server/src/server.rs:276-280 | appending puts the log one command ahead of the store and no further |
| LogMoves.ReleaseInv | crates/rustkv-core/src/db.rs:428-449 | ending a job keeps the invariant, FLUSHDB's store of zero included |
| LogMoves.SwapInv | crates/rustkv-server/src/server.rs:333-335 | replacing the log by the snapshot's, which `Guarantees.SwapRewrites` describes, keeps the invariant, and so does a failed swap |
| LogMoves.RestartInv | crates/rustkv-server/src/aof.rs:78-108 | a crash at any point and a replay at later clock readings re-establish the invariant |
| ShardMoves.PartialStep | crates/rustkv-core/src/db.rs:321-342 | one more visit of a DEL or FLUSHDB is one more step of the half-applied command |
| ShardMoves.PartialFinish | crates/rustkv-core/src/db.rs:316-349 | the last visit completes it: the visits, done one by one at different times, are the one command |
| ShardMoves.MutateInv | crates/rustkv-core/src/db.rs:268-273 | a change inside a locked shard, beside all other tasks, keeps the invariant |
| ShardMoves.CountInv | crates/rustkv-core/src/db.rs:533-544 | the counter update that follows it, beside all other tasks, keeps the invariant |
| Reachability.StepInv | crates/rustkv-server/src/server.rs:238-345 | every action of every task, time and crash keeps the invariant |
| Reachability.RunInv | crates/rustkv-server/src/server.rs:238-345 | the invariant holds at every point of every run |
| Guarantees.LogMatchesStore | crates/rustkv-server/src/server.rs:272-285 | in every reachable state with the engine free, the shards are all commands executed since startup folded each at its own time, the log is the last rewrite's followed by theirs, and log and store agree on both sides of every deadline |
| Guarantees.LogOneAhead | crates/rustkv-server/src/server.rs:272-285 | while a task holds the engine, the log is at most its one command ahead, and the shards show that command's visits so far and nothing else |
| Guarantees.WholeHistory | crates/rustkv-server/src/server.rs:272-285 | before the first restart, and across rewrites, the shards are the whole executed history run on the empty store |
| Guarantees.WholeLog | crates/rustkv-server/src/server.rs:276-282 | before the first rewrite or restart the log is exactly what that history logged |
| Guarantees.VisitSees | crates/rustkv-core/src/db.rs:300-306 | a visit under concurrency sees its key as the reference store has it, and that store is whole commands but for one DEL under way |
| Guarantees.CrashRecovery | crates/rustkv-server/src/aof.rs:78-108 | a crash in any reachable state: the restart brings back no key that was not live and no other value, keeps every deadline within the drift, and restores every live key with no stamp passed and every never raised one whose live deadline is 2 ms and the lag beyond the replay |
| Guarantees.SomeLag | crates/rustkv-server/src/server.rs:276-282 | the lag of crash recovery is no condition on the state: every state has one |
| Counting.CountExact | crates/rustkv-core/src/db.rs:533-544 | with nobody between a change and its count, the counter is the number of entries |
| Counting.CountConserved | crates/rustkv-core/src/db.rs:261-365 | counter plus the changes of length still to be counted is the number of entries, unless a FLUSHDB is clearing, which `ClearingOwes` covers |
| Counting.ClearingOwes | crates/rustkv-core/src/db.rs:428-449 | while a FLUSHDB is clearing, the counter is the number of entries left plus those of the shards it has cleared, and nobody else has a change to count |
| Counting.CountNeverSaturates | crates/rustkv-core/src/db.rs:536-543 | in every reachable state the saturating subtraction takes off the full difference |
| Counting.CountExactInSection | crates/rustkv-core/src/db.rs:451-525 | the counter is exact between visits inside every section under the exclusive global lock, and on a FLUSHDB's entry |
| Guarantees.SeesWholeCommands | crates/rustkv-core/src/db.rs:367-378 | KEYS, purges, snapshots and a FLUSHDB as it begins see whole commands only, never a half-applied multi-key DEL |
| Replies.VisitAnswers | crates/rustkv-core/src/executor.rs:15-108 | a command on one key, run beside any other tasks, gets the reference store's reply at the instant of its shard visit |
| Replies.DelAnswer | crates/rustkv-core/src/db.rs:316-349 | a DEL over several shards under a moving clock counts each distinct key live, in the whole commands it found, when it came to it: no fewer than are live at its end, no more than were at its start |
| Replies.KeysAnswer | crates/rustkv-core/src/db.rs:367-378 | KEYS beside other tasks, with the clock moving from entry to entry, lists exactly the keys, of whole commands, that were live when it looked at them |
| Replies.KeysBounds | crates/rustkv-core/src/db.rs:134-149 | so every key live at its end and none that was not live at its start |
| Replies.KeysOfNoMoment | crates/rustkv-core/src/db.rs:134-149 | two SETs and two clock readings, all in whole milliseconds, for which the list is the live keys of no moment |
| Replies.KeysOfOneMoment | crates/rustkv-core/src/db.rs:134-149 | the list is the live keys of one moment if and only if no key is looked at before its deadline and another, with no earlier deadline, not before its own |
| Guarantees.BothLogsStand | crates/rustkv-server/src/server.rs:333-335 | while files are swapped, the old log and the snapshot's log both agree with the live store on both sides of every deadline, the snapshot's with no lag |
| Guarantees.SwapRewrites | crates/rustkv-server/src/server.rs:333-335 | in every reachable state about to swap, a successful swap leaves a log of exactly one command for each key live at the export in the store of all executed commands, with that value and its stamp, in place of the whole log, and a fresh history; a failed one leaves all but the task as it was |
| Alone.LoneWrite | crates/rustkv-server/src/server.rs:272-285 | from every reachable state with all tasks idle, each step of any write is possible in turn, and at the end its record is at the end of the log, the command is executed on the shards, the counter is exact and every task is as before |
| Alone.LoneRewrite | crates/rustkv-server/src/server.rs:323-345 | from every such state a rewrite of a log grown large runs to its end and leaves one command for each live key |
| Alone.PurgedShard | crates/rustkv-core/src/db.rs:473-487 | a visit of the TTL worker, or of an export at its instant, leaves exactly the live keys in the shard |
| Serving.LoneRead | crates/rustkv-server/src/server.rs:288-289 | from every such state GET, EXISTS, TTL and the purge run to their ends and leave log, history, what is seen, and an exact counter |
| Serving.LoneKeys | crates/rustkv-core/src/db.rs:367-378 | from every such state a KEYS runs through every entry of every shard to its end and lists exactly the live keys of all executed commands |
| Serving.TimePasses | crates/rustkv-core/src/db.rs:46-53 | with all tasks idle, time passes for every entry: the shards show what the executed commands leave at the later time |
| Serving.RestartServes | crates/rustkv-server/src/aof.rs:78-108 | after a restart in any reachable state the server is ready: the shards and idle tasks it was given, the log as it was, the replayed store, an exact counter |
| Locks.LocksAscend | crates/rustkv-server/src/server.rs:273-284 | a task only waits for a lock above every lock it holds |
| Locks.Unblocked | crates/rustkv-server/src/server.rs:328-335 | following whoever blocks a busy task, a holder or an earlier waiter in the lock's queue, leads to a task that can move |
| Locks.NoDeadlock | crates/rustkv-server/src/server.rs:272-335 | no reachable state is deadlocked, in whatever order waiting tasks queue and with readers held back behind a waiting writer, a reply write taken to finish |
| Locks.MutualExclusion | crates/rustkv-core/src/db.rs:228-233 | in every reachable state no two tasks hold a lock in conflicting modes |
| Locks.ClientWaits | crates/rustkv-server/src/server.rs:273-275 | a client can pass the barrier if and only if no rewrite is between its export and its swap, and take the engine if and only if no other client is between append and reply, no size is being read and no swap is under way |
| Locks.StoreWaits | crates/rustkv-core/src/db.rs:228-233 | a command on keys can enter the store if and only if no scan is inside, and its shard if and only if no task is at that shard; a scan can enter if and only if nobody is inside |
| LogFile.LogReadsBack | crates/rustkv-server/src/aof.rs:78-108 | the file of the log in any reachable state reads back whole as that log |
| LogFile.SwapFilesStand | crates/rustkv-server/src/aof.rs:158-178 | in any reachable state of a swap, a file that holds either complete log reads to its end as a log that agrees with the live store on both sides of every deadline |

## Left out

- Aof.AofEngine.Append: the record is written whole or not at all; a write that fails part-way, or a sync that fails after a complete write, is not modelled. The code neither rolls back nor marks such bytes.
- Aof.AofEngine.Rewrite: the process dying between the two renames is not recovered by the code, which at startup reads only the log path; the state machine therefore takes the swap of the log as one step, while the file steps are the subject of `Aof`.
- Aof.AofEngine.Rewrite: with both renames failing the log path is missing or empty afterwards; the state machine does not include that outcome.
- Replay.Agreement: it is about logs of absolute commands, which are all the server writes; a hand-written log with relative expiries is replayed by the model but not covered by the recovery theorems.
- Databases.Database.Set: the clock is read once per store operation; the source reads it anew for each check inside one, microseconds apart. TTL's two reads are kept.
- Recovery.SnapshotTrip: a snapshot (db.rs:493-494) and the application of a stamp (db.rs:61-68) read two clocks, one after the other; on whole stores both read at one instant. `Clock.DelayedDrift` says what the delays add to a deadline.
- Clock.DriftBound: the offset between monotonic and Unix clock is constant; adjustments of the system clock are not modelled.
- A scan's shard locks are all exclusive in the state machine, where KEYS takes them shared under the exclusive global lock; a counter update and the shard's release are one step, as are the releases at the end of a job. The state machine grants a lock by who holds it; Tokio's queues only withhold grants, and `NoDeadlock` is proved with them.
- Locks.NoDeadlock: writing a reply is a step that is taken to finish; a client that does not read its reply holds barrier and engine for as long (server.rs:283-284).
- ReplyCodec.ReplyCarried: the texts of decoding errors sent back as error replies are not part of this model beyond their kind.
- The state machine has the log enabled; without a log the same store steps run without barrier and engine.
- A client's reply in the state machine is what its visits read or count; that it is then rendered as in `Sharded.ExecuteCommand` is not part of the machine.
- `RespFrame` and `RespValue` are one type; the borrow of the input and the copy into owned values are the same value here.
- The hash is any fixed function from keys to naturals, and sorting is a specification function; `DefaultHasher` and `Vec::sort` are not part of this model.
- INFO's JSON, server statistics and the memory estimate: single-branch facts, and `set_key_count` stores a possibly stale number.
- Sockets, the Tokio runtime, accept loop, signals, shutdown and tracing: foreign I/O. A socket is a list of non-empty chunks; a read error is not modelled.
- Capacity allocation, stack depth and overflow of an `Instant` for enormous expiries: sequences and instants are unbounded.
- Configuration checks, CLI, shell, monitor and benchmark crates: user interface and client plumbing.
