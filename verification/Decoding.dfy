/** What requests mean: every command a client can write, letter for letter, and nothing else. */
module Decoding {
  import opened Bytes
  import opened Decimal
  import opened Resp
  import opened Commands

  // ----------------------------------------------------------- letter case

  /** The same byte, or the same ASCII letter in the other case. */
  predicate SameLetter(a: byte, b: byte) {
    a == b || (65 <= a <= 90 && b as int == a + 32) || (97 <= a <= 122 && b as int == a - 32)
  }

  /** The two texts differ at most in the case of ASCII letters. */
  predicate Spells(a: Bytes, b: Bytes) {
    |a| == |b| && forall i :: 0 <= i < |a| ==> SameLetter(a[i], b[i])
  }

  lemma SameUpper(a: byte, b: byte)
    ensures UpperByte(a) == UpperByte(b) <==> SameLetter(a, b)
  {
  }

  /** Upper case forgets the case of ASCII letters and nothing else. */
  lemma UpperExactly(a: Bytes, b: Bytes)
    ensures Upper(a) == Upper(b) <==> Spells(a, b)
  {
    if Spells(a, b) {
      forall i | 0 <= i < |a| ensures Upper(a)[i] == Upper(b)[i] {
        SameUpper(a[i], b[i]);
      }
    }
    if Upper(a) == Upper(b) {
      forall i | 0 <= i < |a| ensures SameLetter(a[i], b[i]) {
        assert Upper(a)[i] == Upper(b)[i];
        SameUpper(a[i], b[i]);
      }
    }
  }

  lemma SpelledText(a: Bytes, b: Bytes)
    requires Spells(a, b) && Ascii(b)
    ensures ValidUtf8(a)
  {
    AsciiIsUtf8(a);
  }

  /** The words of the vocabulary are in upper case. */
  lemma VocabularyIsUpper()
    ensures Upper(PING) == PING && Upper(SET) == SET && Upper(GET) == GET && Upper(DEL) == DEL
    ensures Upper(EXISTS) == EXISTS && Upper(KEYS) == KEYS && Upper(EXPIRE) == EXPIRE && Upper(EXPIREAT) == EXPIREAT
    ensures Upper(TTL) == TTL && Upper(FLUSHDB) == FLUSHDB && Upper(INFO) == INFO
    ensures Upper(EX) == EX && Upper(PX) == PX && Upper(PXAT) == PXAT
  {
  }

  /** A name that spells a word of the vocabulary is dispatched as that word. */
  lemma Named(name: Bytes, word: Bytes, rest: seq<Bytes>)
    requires Spells(name, word) && Upper(word) == word && Ascii(word)
    ensures ParseArgs([name] + rest) == Dispatch(word, [name] + rest)
  {
    hide Dispatch, ValidUtf8, Upper;
    UpperExactly(name, word);
    SpelledText(name, word);
  }

  // ------------------------------------------------------- every command

  /** PING, FLUSHDB and INFO stand alone. */
  lemma BareCommands(name: Bytes, rest: seq<Bytes>)
    ensures Spells(name, [80, 73, 78, 71])
        ==> ParseArgs([name] + rest) == if |rest| == 0 then Ok(Ping) else Err(WrongArity("PING", 0, |rest|))
    ensures Spells(name, [70, 76, 85, 83, 72, 68, 66])
        ==> ParseArgs([name] + rest) == if |rest| == 0 then Ok(FlushDb) else Err(WrongArity("FLUSHDB", 0, |rest|))
    ensures Spells(name, [73, 78, 70, 79])
        ==> ParseArgs([name] + rest) == if |rest| == 0 then Ok(Info) else Err(WrongArity("INFO", 0, |rest|))
  {
    VocabularyIsUpper();
    hide ParseArgs, ParseSet, ParseDel, ParseKeys, ParseExpire, ParseExpireAt, OneKey, Spells, Upper;
    if Spells(name, PING) {
      Named(name, PING, rest);
    }
    if Spells(name, FLUSHDB) {
      Named(name, FLUSHDB, rest);
    }
    if Spells(name, INFO) {
      Named(name, INFO, rest);
    }
  }

  function KeyOnly(name: string, rest: seq<Bytes>, c: Command): Result<Command, KvError> {
    if |rest| != 1 then Err(WrongArity(name, 1, |rest|))
    else if ValidUtf8(rest[0]) then Ok(c)
    else Err(InvalidCommand(name + " key" + " must be UTF-8"))
  }

  /** GET, EXISTS and TTL take one key. */
  lemma KeyCommands(name: Bytes, rest: seq<Bytes>)
    ensures var key := if |rest| > 0 then rest[0] else [];
            && (Spells(name, [71, 69, 84]) ==> ParseArgs([name] + rest) == KeyOnly("GET", rest, Get(key)))
            && (Spells(name, [69, 88, 73, 83, 84, 83]) ==> ParseArgs([name] + rest) == KeyOnly("EXISTS", rest, Exists(key)))
            && (Spells(name, [84, 84, 76]) ==> ParseArgs([name] + rest) == KeyOnly("TTL", rest, Ttl(key)))
  {
    VocabularyIsUpper();
    hide ParseArgs, ParseSet, ParseDel, ParseKeys, ParseExpire, ParseExpireAt, Bare, Spells, Upper, ValidUtf8;
    if Spells(name, GET) {
      Named(name, GET, rest);
    }
    if Spells(name, EXISTS) {
      Named(name, EXISTS, rest);
    }
    if Spells(name, TTL) {
      Named(name, TTL, rest);
    }
  }

  /** A number argument is what parses as a u64. */
  lemma NumberExactly(arg: Bytes, what: string)
    ensures NumberArg(arg, what).Ok? <==> ParseU64(arg).Some?
    ensures ParseU64(arg).Some? ==> NumberArg(arg, what) == Ok(ParseU64(arg).value)
  {
    ParseU64Exactly(arg);
    if ParseU64(arg).Some? {
      assert Ascii(arg) by {
        assert arg == if |arg| > 0 && arg[0] == 43 then [arg[0]] + arg[1..] else arg;
      }
      AsciiIsUtf8(arg);
    }
    hide ParseU64, ValidUtf8;
  }

  predicate IsOption(option: Bytes) {
    Spells(option, [69, 88]) || Spells(option, [80, 88]) || Spells(option, [80, 88, 65, 84])
  }

  /** SET with a key and a value, and with EX in seconds, PX in milliseconds or PXAT at a stamp; nothing else. */
  lemma SetForms(name: Bytes, rest: seq<Bytes>)
    requires Spells(name, [83, 69, 84])
    ensures |rest| == 2 && ValidUtf8(rest[0]) ==> ParseArgs([name] + rest) == Ok(Set(rest[0], rest[1], None))
    ensures |rest| == 4 && ValidUtf8(rest[0]) && ParseU64(rest[3]).Some? ==>
              var key, value, option, n := rest[0], rest[1], rest[2], ParseU64(rest[3]).value;
              && (Spells(option, [69, 88]) ==> ParseArgs([name] + rest) == Ok(Set(key, value, Some(1000 * n))))
              && (Spells(option, [80, 88]) ==> ParseArgs([name] + rest) == Ok(Set(key, value, Some(n))))
              && (Spells(option, [80, 88, 65, 84]) ==> ParseArgs([name] + rest) == Ok(SetPxAt(key, value, n)))
    ensures ParseArgs([name] + rest).Ok? <==>
              || (|rest| == 2 && ValidUtf8(rest[0]))
              || (|rest| == 4 && ValidUtf8(rest[0]) && IsOption(rest[2]) && ParseU64(rest[3]).Some?)
  {
    VocabularyIsUpper();
    Named(name, SET, rest);
    assert ParseArgs([name] + rest) == ParseSet([name] + rest) by { DispatchSet([name] + rest); }
    if |rest| == 4 {
      SetOption(rest[0], rest[1], rest[2], rest[3]);
    }
    hide ParseArgs, ParseSetExpire, Dispatch, Spells, ValidUtf8, ParseU64, Upper;
  }

  lemma DispatchSet(args: seq<Bytes>)
    requires |args| > 0
    ensures Dispatch(SET, args) == ParseSet(args)
  {
    hide ParseSet;
  }

  lemma SetOption(key: Key, value: Bytes, option: Bytes, amount: Bytes)
    ensures var n, r := ParseU64(amount), ParseSetExpire(key, value, option, amount);
            && (n.Some? && Spells(option, [69, 88]) ==> r == Ok(Set(key, value, Some(1000 * n.value))))
            && (n.Some? && Spells(option, [80, 88]) ==> r == Ok(Set(key, value, Some(n.value))))
            && (n.Some? && Spells(option, [80, 88, 65, 84]) ==> r == Ok(SetPxAt(key, value, n.value)))
            && (r.Ok? <==> n.Some? && IsOption(option))
  {
    VocabularyIsUpper();
    NumberExactly(amount, "SET expire duration");
    UpperExactly(option, EX);
    UpperExactly(option, PX);
    UpperExactly(option, PXAT);
    if Spells(option, EX) {
      SpelledText(option, EX);
    }
    if Spells(option, PX) {
      SpelledText(option, PX);
    }
    if Spells(option, PXAT) {
      SpelledText(option, PXAT);
    }
    hide Spells, ValidUtf8, ParseU64, NumberArg, Upper;
  }

  /** DEL with one key or more, in order. */
  lemma DelForm(name: Bytes, rest: seq<Bytes>)
    requires Spells(name, [68, 69, 76])
    ensures ParseArgs([name] + rest).Ok? <==> |rest| > 0 && forall i :: 0 <= i < |rest| ==> ValidUtf8(rest[i])
    ensures ParseArgs([name] + rest).Ok? ==> ParseArgs([name] + rest) == Ok(Del(rest))
  {
    VocabularyIsUpper();
    Named(name, DEL, rest);
    TextsExactly(rest, "DEL key");
    assert ([name] + rest)[1..] == rest;
    hide ParseArgs, TextArgs, Spells, ValidUtf8, Upper, ParseSet, ParseKeys, ParseExpire, ParseExpireAt, OneKey, Bare;
  }

  lemma {:induction false} TextsExactly(args: seq<Bytes>, what: string)
    ensures TextArgs(args, what).Ok? <==> forall i :: 0 <= i < |args| ==> ValidUtf8(args[i])
  {
    hide ValidUtf8;
    if |args| == 0 {
    } else {
      TextsExactly(args[1..], what);
    }
  }

  /** KEYS alone or with `*`. */
  lemma KeysForm(name: Bytes, rest: seq<Bytes>)
    requires Spells(name, [75, 69, 89, 83])
    ensures ParseArgs([name] + rest).Ok? <==> |rest| == 0 || rest == [[42]]
    ensures ParseArgs([name] + rest).Ok? ==> ParseArgs([name] + rest) == Ok(Keys)
  {
    VocabularyIsUpper();
    Named(name, KEYS, rest);
    hide ParseArgs, Spells, ValidUtf8, Upper, ParseSet, ParseDel, ParseExpire, ParseExpireAt, OneKey, Bare;
  }

  /** EXPIRE in seconds and EXPIREAT at a stamp in milliseconds. */
  lemma ExpireForms(name: Bytes, rest: seq<Bytes>)
    requires Spells(name, [69, 88, 80, 73, 82, 69]) || Spells(name, [69, 88, 80, 73, 82, 69, 65, 84])
    ensures ParseArgs([name] + rest).Ok? <==> |rest| == 2 && ValidUtf8(rest[0]) && ParseU64(rest[1]).Some?
    ensures ParseArgs([name] + rest).Ok? ==>
              ParseArgs([name] + rest) == Ok(if |name| == 6 then Expire(rest[0], ParseU64(rest[1]).value)
                                             else ExpireAt(rest[0], ParseU64(rest[1]).value))
  {
    VocabularyIsUpper();
    if |rest| == 2 {
      NumberExactly(rest[1], "EXPIRE seconds");
      NumberExactly(rest[1], "EXPIREAT timestamp_ms");
    }
    if |name| == 6 {
      Named(name, EXPIRE, rest);
    } else {
      Named(name, EXPIREAT, rest);
    }
    hide ParseArgs, Spells, ValidUtf8, Upper, ParseSet, ParseDel, ParseKeys, OneKey, Bare, NumberArg, ParseU64;
  }

  /** The eleven names. */
  predicate IsName(name: Bytes) {
    || Spells(name, [80, 73, 78, 71]) || Spells(name, [83, 69, 84]) || Spells(name, [71, 69, 84])
    || Spells(name, [68, 69, 76]) || Spells(name, [69, 88, 73, 83, 84, 83]) || Spells(name, [75, 69, 89, 83])
    || Spells(name, [69, 88, 80, 73, 82, 69]) || Spells(name, [69, 88, 80, 73, 82, 69, 65, 84])
    || Spells(name, [84, 84, 76]) || Spells(name, [70, 76, 85, 83, 72, 68, 66]) || Spells(name, [73, 78, 70, 79])
  }

  /** Any other text is an unknown command, which keeps its spelling; no text is none. */
  lemma UnknownForm(name: Bytes, rest: seq<Bytes>)
    ensures !ValidUtf8(name) ==> ParseArgs([name] + rest).Err?
    ensures ValidUtf8(name) && !IsName(name) ==> ParseArgs([name] + rest) == Ok(Unknown(name))
    ensures ParseArgs([]).Err?
  {
    NameIsUpper(name);
    hide IsName, ValidUtf8, Upper, ParseSet, ParseDel, ParseKeys, ParseExpire, ParseExpireAt, OneKey, Bare;
  }

  /** The letter case of a name makes no difference to what the request decodes to, nor to its error, but that an
      unknown command keeps its spelling. */
  lemma SpelledAlike(a: Bytes, b: Bytes, rest: seq<Bytes>)
    requires Spells(a, b) && ValidUtf8(a) && ValidUtf8(b)
    ensures IsName(a) <==> IsName(b)
    ensures IsName(a) ==> ParseArgs([a] + rest) == ParseArgs([b] + rest)
    ensures !IsName(a) ==> ParseArgs([a] + rest) == Ok(Unknown(a))
  {
    UpperExactly(a, b);
    NameIsUpper(a);
    NameIsUpper(b);
    hide Spells, ValidUtf8, Upper, IsName, Dispatch;
    if IsName(a) {
      DispatchAlike(Upper(a), a, b, rest);
    } else {
      UnknownForm(a, rest);
    }
  }

  predicate IsWord(word: Bytes) {
    word in [PING, SET, GET, DEL, EXISTS, KEYS, EXPIRE, EXPIREAT, TTL, FLUSHDB, INFO]
  }

  lemma NameIsUpper(name: Bytes)
    ensures IsName(name) <==> IsWord(Upper(name))
  {
    VocabularyIsUpper();
    UpperExactly(name, PING);
    UpperExactly(name, SET);
    UpperExactly(name, GET);
    UpperExactly(name, DEL);
    UpperExactly(name, EXISTS);
    UpperExactly(name, KEYS);
    UpperExactly(name, EXPIRE);
    UpperExactly(name, EXPIREAT);
    UpperExactly(name, TTL);
    UpperExactly(name, FLUSHDB);
    UpperExactly(name, INFO);
    hide Spells, Upper;
  }

  lemma DispatchAlike(word: Bytes, a: Bytes, b: Bytes, rest: seq<Bytes>)
    requires IsWord(word)
    ensures Dispatch(word, [a] + rest) == Dispatch(word, [b] + rest)
  {
    assert ([a] + rest)[1..] == rest && ([b] + rest)[1..] == rest;
    assert forall i :: 0 < i <= |rest| ==> ([a] + rest)[i] == rest[i - 1] && ([b] + rest)[i] == rest[i - 1];
    hide TextArgs, ParseSetExpire, NumberArg, ValidUtf8;
  }

  // --------------------------------------------------------------- frames

  predicate IsArgument(item: Resp) {
    item.SimpleString? || item.BulkString?
  }

  function Argument(item: Resp): Bytes
    requires IsArgument(item)
  {
    if item.SimpleString? then item.text else item.bytes
  }

  function Arguments(items: seq<Resp>): (r: seq<Bytes>)
    requires forall i :: 0 <= i < |items| ==> IsArgument(items[i])
    ensures |r| == |items| && forall i :: 0 <= i < |r| ==> r[i] == Argument(items[i])
  {
    seq(|items|, i requires 0 <= i < |items| => Argument(items[i]))
  }

  lemma {:induction false} ArgumentsExactly(items: seq<Resp>)
    ensures ArrayArgs(items).Ok? <==> forall i :: 0 <= i < |items| ==> IsArgument(items[i])
    ensures ArrayArgs(items).Ok? ==> ArrayArgs(items) == Ok(Arguments(items))
  {
    if |items| == 0 {
    } else {
      ArgumentsExactly(items[1..]);
      if ArrayArgs(items).Ok? {
        assert ArrayArgs(items).value == Arguments(items);
      }
    }
  }

  /** A command is an array of simple and bulk strings, or the words of one such string; no other value is one. */
  lemma FrameForms(items: seq<Resp>, line: Bytes)
    ensures (forall i :: 0 <= i < |items| ==> IsArgument(items[i]))
        ==> FromResp(Array(items)) == ParseArgs(Arguments(items))
    ensures !(forall i :: 0 <= i < |items| ==> IsArgument(items[i])) ==> FromResp(Array(items)).Err?
    ensures |Words(line)| > 0 ==> FromResp(SimpleString(line)) == ParseArgs(Words(line))
    ensures |Words(line)| > 0 && ValidUtf8(line) ==> FromResp(BulkString(line)) == ParseArgs(Words(line))
    ensures |Words(line)| == 0 ==> FromResp(SimpleString(line)).Err? && FromResp(BulkString(line)).Err?
    ensures !ValidUtf8(line) ==> FromResp(BulkString(line)).Err?
  {
    ArgumentsExactly(items);
    hide ParseArgs, Words, ValidUtf8, ArrayArgs;
  }

  lemma OtherFrames(number: i64, text: Bytes)
    ensures FromResp(Integer(number)).Err? && FromResp(Error(text)).Err? && FromResp(Null).Err?
  {
  }

  // --------------------------------------------------------- inline lines

  /** Tab, line feed, form feed, carriage return and space. */
  predicate Blank(s: Bytes) {
    forall i :: 0 <= i < |s| ==> s[i] == 9 || s[i] == 10 || s[i] == 12 || s[i] == 13 || s[i] == 32
  }

  predicate BlankFree(s: Bytes) {
    forall i :: 0 <= i < |s| ==> s[i] != 9 && s[i] != 10 && s[i] != 12 && s[i] != 13 && s[i] != 32
  }

  /** The words with the gaps before, between and after them. */
  function Spaced(words: seq<Bytes>, gaps: seq<Bytes>): Bytes
    requires |gaps| == |words| + 1
  {
    if |words| == 0 then gaps[0] else gaps[0] + words[0] + Spaced(words[1..], gaps[1..])
  }

  /** A run ends where the other kind begins. */
  lemma {:induction false} RunIs(run: Bytes, rest: Bytes, spaces: bool)
    requires if spaces then Blank(run) else BlankFree(run)
    requires |rest| > 0 ==> IsSpace(rest[0]) != spaces
    ensures RunLength(run + rest, spaces) == |run|
  {
    if |run| == 0 {
      assert run + rest == rest;
    } else {
      RunIs(run[1..], rest, spaces);
      assert (run + rest)[1..] == run[1..] + rest;
    }
  }

  lemma GapSkipped(gap: Bytes, rest: Bytes)
    requires Blank(gap) && (|rest| > 0 ==> !IsSpace(rest[0]))
    ensures Words(gap + rest) == Words(rest)
  {
    RunIs(gap, rest, true);
    if |gap| == 0 {
      assert gap + rest == rest;
    } else {
      assert (gap + rest)[0] == gap[0];
      assert (gap + rest)[|gap|..] == rest;
    }
  }

  lemma WordTaken(word: Bytes, rest: Bytes)
    requires |word| > 0 && BlankFree(word) && (|rest| > 0 ==> IsSpace(rest[0]))
    ensures Words(word + rest) == [word] + Words(rest)
  {
    RunIs(word, rest, false);
    assert (word + rest)[0] == word[0];
    assert (word + rest)[..|word|] == word && (word + rest)[|word|..] == rest;
  }

  /** An inline line is its words: whatever blanks stand between and around them, all come back, in order. */
  lemma {:induction false} WordsExactly(words: seq<Bytes>, gaps: seq<Bytes>)
    requires |gaps| == |words| + 1 && forall i :: 0 <= i < |gaps| ==> Blank(gaps[i])
    requires forall i :: 0 < i < |words| ==> |gaps[i]| > 0
    requires forall i :: 0 <= i < |words| ==> |words[i]| > 0 && BlankFree(words[i])
    ensures Words(Spaced(words, gaps)) == words
  {
    hide Words, Blank, BlankFree, IsSpace;
    if |words| == 0 {
      GapSkipped(gaps[0], []);
      assert gaps[0] + [] == gaps[0];
      assert Words([]) == [] by { NoWords(); }
    } else {
      var rest := Spaced(words[1..], gaps[1..]);
      WordsExactly(words[1..], gaps[1..]);
      SpacedOpens(words, gaps);
      WordTaken(words[0], rest);
      GapSkipped(gaps[0], words[0] + rest);
      assert Spaced(words, gaps) == gaps[0] + (words[0] + rest);
      assert words == [words[0]] + words[1..];
    }
  }

  lemma NoWords()
    ensures Words([]) == []
  {
  }

  /** A word opens with no blank, and what follows it with one. */
  lemma SpacedOpens(words: seq<Bytes>, gaps: seq<Bytes>)
    requires |gaps| == |words| + 1 && |words| > 0 && forall i :: 0 <= i < |gaps| ==> Blank(gaps[i])
    requires forall i :: 0 < i < |words| ==> |gaps[i]| > 0
    requires |words[0]| > 0 && BlankFree(words[0])
    ensures var rest := Spaced(words[1..], gaps[1..]);
            !IsSpace((words[0] + rest)[0]) && (|rest| > 0 ==> IsSpace(rest[0]))
  {
    if |words| > 1 {
      assert |gaps[1]| > 0;
      assert Spaced(words[1..], gaps[1..])[0] == gaps[1][0];
    }
    assert Blank(gaps[1]);
  }

  // ---------------------------------------------------------- as clients send it

  /** With a printed number: EX and EXPIRE in seconds, PX in milliseconds, PXAT and EXPIREAT at a stamp. */
  lemma PrintedForms(key: Key, value: Bytes, n: u64)
    requires ValidUtf8(key)
    ensures ParseArgs([[83, 69, 84], key, value]) == Ok(Set(key, value, None))
    ensures ParseArgs([[83, 69, 84], key, value, [69, 88], Print(n)]) == Ok(Set(key, value, Some(1000 * n)))
    ensures ParseArgs([[83, 69, 84], key, value, [80, 88], Print(n)]) == Ok(Set(key, value, Some(n)))
    ensures ParseArgs([[83, 69, 84], key, value, [80, 88, 65, 84], Print(n)]) == Ok(SetPxAt(key, value, n))
    ensures ParseArgs([[69, 88, 80, 73, 82, 69], key, Print(n)]) == Ok(Expire(key, n))
    ensures ParseArgs([[69, 88, 80, 73, 82, 69, 65, 84], key, Print(n)]) == Ok(ExpireAt(key, n))
  {
    PrintParseU64(n);
    hide ParseArgs, Print, ParseU64, ValidUtf8, IsOption;
    assert [SET, key, value] == [SET] + [key, value];
    SetForms(SET, [key, value]);
    PrintedOption(key, value, [69, 88], n);
    PrintedOption(key, value, [80, 88], n);
    PrintedOption(key, value, [80, 88, 65, 84], n);
    assert [EXPIRE, key, Print(n)] == [EXPIRE] + [key, Print(n)];
    ExpireForms(EXPIRE, [key, Print(n)]);
    assert [EXPIREAT, key, Print(n)] == [EXPIREAT] + [key, Print(n)];
    ExpireForms(EXPIREAT, [key, Print(n)]);
  }

  lemma PrintedOption(key: Key, value: Bytes, option: Bytes, n: u64)
    requires ValidUtf8(key) && ParseU64(Print(n)) == Some(n)
    ensures var r := ParseArgs([[83, 69, 84], key, value, option, Print(n)]);
            && (option == [69, 88] ==> r == Ok(Set(key, value, Some(1000 * n))))
            && (option == [80, 88] ==> r == Ok(Set(key, value, Some(n))))
            && (option == [80, 88, 65, 84] ==> r == Ok(SetPxAt(key, value, n)))
  {
    hide ParseArgs, Print, ParseU64, ValidUtf8, IsOption;
    var rest := [key, value, option, Print(n)];
    assert [SET, key, value, option, Print(n)] == [SET] + rest;
    SetForms(SET, rest);
  }
}
