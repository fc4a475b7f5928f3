/** Bytes, byte strings and the two small result types every module shares. */
module Bytes {

  type byte = b: int | 0 <= b < 256

  /** A Rust `&[u8]`, `Vec<u8>` or (when it is valid UTF-8) `String`. */
  type Bytes = seq<byte>

  datatype Option<+T> = None | Some(value: T)

  datatype Result<+T, +E> = Ok(value: T) | Err(error: E)

  const CR: byte := 13
  const LF: byte := 10
  const CRLF: Bytes := [CR, LF]

  /** Rust slices and vectors hold at most `isize::MAX` bytes on a 64-bit target. */
  const ISIZE_MAX: nat := 0x7FFF_FFFF_FFFF_FFFF
  const USIZE_MAX: nat := 0xFFFF_FFFF_FFFF_FFFF

  predicate Ascii(s: Bytes) {
    forall i :: 0 <= i < |s| ==> s[i] < 128
  }

  // ---------------------------------------------------------------- UTF-8

  predicate Continuation(b: byte) {
    128 <= b < 192
  }

  /** Length of the well-formed code point at the head of `s`, or 0 when there is none. */
  function CodePointLength(s: Bytes): (n: nat)
    requires |s| > 0
    ensures n <= |s|
  {
    var a := s[0];
    if a < 128 then 1
    else if 194 <= a < 224 then
      if |s| >= 2 && Continuation(s[1]) then 2 else 0
    else if 224 <= a < 240 then
      if |s| >= 3 && Continuation(s[1]) && Continuation(s[2])
         && (a == 224 ==> s[1] >= 160) && (a == 237 ==> s[1] < 160) then 3 else 0
    else if 240 <= a < 245 then
      if |s| >= 4 && Continuation(s[1]) && Continuation(s[2]) && Continuation(s[3])
         && (a == 240 ==> s[1] >= 144) && (a == 244 ==> s[1] < 144) then 4 else 0
    else 0
  }

  predicate ValidUtf8(s: Bytes) {
    |s| == 0 || (var n := CodePointLength(s); n > 0 && ValidUtf8(s[n..]))
  }

  lemma {:induction false} AsciiIsUtf8(s: Bytes)
    requires Ascii(s)
    ensures ValidUtf8(s)
  {
    if |s| == 0 {
    } else {
      AsciiIsUtf8(s[1..]);
    }
  }

  // ----------------------------------------------------- ASCII upper case

  function UpperByte(b: byte): byte {
    if 97 <= b <= 122 then b - 32 else b
  }

  function Upper(s: Bytes): (r: Bytes)
    ensures |r| == |s|
    ensures forall i :: 0 <= i < |s| ==> r[i] == UpperByte(s[i])
  {
    seq(|s|, i requires 0 <= i < |s| => UpperByte(s[i]))
  }

  // ------------------------------------------- lexicographic order, sorting

  /** The order of Rust strings: bytes compared left to right, a proper prefix first. */
  predicate LexLess(a: Bytes, b: Bytes) {
    |b| > 0 && (|a| == 0 || a[0] < b[0] || (a[0] == b[0] && LexLess(a[1..], b[1..])))
  }

  lemma {:induction false} LexTrichotomy(a: Bytes, b: Bytes)
    ensures LexLess(a, b) || a == b || LexLess(b, a)
    ensures !(LexLess(a, b) && LexLess(b, a))
    ensures a == b ==> !LexLess(a, b)
  {
    if |a| == 0 || |b| == 0 {
    } else {
      LexTrichotomy(a[1..], b[1..]);
      if a[0] == b[0] && a[1..] == b[1..] {
        assert a == [a[0]] + a[1..] == [b[0]] + b[1..] == b;
      }
    }
  }

  lemma {:induction false} LexTransitive(a: Bytes, b: Bytes, c: Bytes)
    requires LexLess(a, b) && LexLess(b, c)
    ensures LexLess(a, c)
  {
    if |a| == 0 || a[0] != b[0] || b[0] != c[0] {
    } else {
      LexTransitive(a[1..], b[1..], c[1..]);
    }
  }

  /** Ascending without repetition. */
  ghost predicate StrictlySorted(s: seq<Bytes>) {
    forall i, j :: 0 <= i < j < |s| ==> LexLess(s[i], s[j])
  }

  /** `a` and `b` are the same up to `n`, where `a` ends first or has the smaller byte. */
  predicate PrecedesAt(a: Bytes, b: Bytes, n: nat) {
    && n <= |a| && n <= |b| && a[..n] == b[..n]
    && ((n == |a| && n < |b|) || (n < |a| && n < |b| && a[n] < b[n]))
  }

  /** `a` comes first: at the first place they differ it ends or has the smaller byte. */
  ghost predicate Precedes(a: Bytes, b: Bytes) {
    exists n: nat :: PrecedesAt(a, b, n)
  }

  lemma SameHead(a: Bytes, b: Bytes, n: nat)
    requires PrecedesAt(a, b, n)
    ensures n == 0 || (|a| > 0 && |b| > 0 && a[0] == b[0])
  {
    if n > 0 {
      assert a[..n][0] == b[..n][0];
    }
  }

  /** The recursive comparison is the comparison at the first difference. */
  lemma {:induction false} LexLessExactly(a: Bytes, b: Bytes)
    ensures LexLess(a, b) <==> Precedes(a, b)
  {
    if |a| == 0 || |b| == 0 || a[0] != b[0] {
      if LexLess(a, b) {
        assert PrecedesAt(a, b, 0);
      }
      if Precedes(a, b) {
        var n: nat :| PrecedesAt(a, b, n);
        SameHead(a, b, n);
      }
    } else {
      LexLessExactly(a[1..], b[1..]);
      if LexLess(a, b) {
        var n: nat :| PrecedesAt(a[1..], b[1..], n);
        assert a[..n + 1] == [a[0]] + a[1..][..n] && b[..n + 1] == [b[0]] + b[1..][..n];
        assert PrecedesAt(a, b, n + 1);
      }
      if Precedes(a, b) {
        var n: nat :| PrecedesAt(a, b, n);
        assert a[1..][..n - 1] == a[..n][1..] && b[1..][..n - 1] == b[..n][1..];
        assert PrecedesAt(a[1..], b[1..], n - 1);
      }
    }
  }

  /** Each before the next, and before all that follow. */
  ghost predicate Ascending(s: seq<Bytes>) {
    forall i, j :: 0 <= i < j < |s| ==> Precedes(s[i], s[j])
  }

  /** Sorted is ascending by first difference. */
  lemma SortedAscends(s: seq<Bytes>)
    ensures StrictlySorted(s) <==> Ascending(s)
  {
    forall i, j | 0 <= i < j < |s| ensures LexLess(s[i], s[j]) <==> Precedes(s[i], s[j]) {
      LexLessExactly(s[i], s[j]);
    }
  }

  function Elements(s: seq<Bytes>): (r: set<Bytes>)
    ensures forall x :: x in r <==> x in s
  {
    set x | x in s
  }

  /** Two strictly sorted lists with the same elements are the same list. */
  lemma {:induction false} SortedListUnique(a: seq<Bytes>, b: seq<Bytes>)
    requires StrictlySorted(a) && StrictlySorted(b) && Elements(a) == Elements(b)
    ensures a == b
  {
    assert |b| > 0 ==> b[0] in Elements(b);
    if |a| == 0 {
    } else {
      assert a[0] in Elements(a);
      if |b| > 0 {
        assert b[0] in Elements(b);
        var i :| 0 <= i < |b| && b[i] == a[0];
        var j :| 0 <= j < |a| && a[j] == b[0];
        LexTrichotomy(a[0], b[0]);
        assert a[0] == b[0];
        assert Elements(a[1..]) == Elements(b[1..]) by {
          TailElements(a);
          TailElements(b);
        }
        SortedListUnique(a[1..], b[1..]);
        assert a == [a[0]] + a[1..] == [b[0]] + b[1..] == b;
      }
    }
  }

  lemma TailElements(a: seq<Bytes>)
    requires |a| > 0 && StrictlySorted(a)
    ensures Elements(a[1..]) == Elements(a) - {a[0]}
  {
    LexTrichotomy(a[0], a[0]);
    forall x ensures x in Elements(a[1..]) <==> x in Elements(a) - {a[0]} {
      if x in Elements(a[1..]) {
        var i :| 0 <= i < |a[1..]| && a[1..][i] == x;
        assert a[i + 1] == x && LexLess(a[0], a[i + 1]);
      }
      if x in Elements(a) - {a[0]} {
        var i :| 0 <= i < |a| && a[i] == x;
        assert a[1..][i - 1] == x;
      }
    }
  }

  function Insert(x: Bytes, s: seq<Bytes>): seq<Bytes> {
    if |s| == 0 || LexLess(x, s[0]) then [x] + s else [s[0]] + Insert(x, s[1..])
  }

  /** What `Vec::sort` does to a list of distinct strings. */
  function Sort(s: seq<Bytes>): seq<Bytes> {
    if |s| == 0 then [] else Insert(s[0], Sort(s[1..]))
  }

  lemma {:induction false} InsertSorted(x: Bytes, s: seq<Bytes>)
    requires StrictlySorted(s) && x !in s
    ensures StrictlySorted(Insert(x, s))
    ensures Elements(Insert(x, s)) == Elements(s) + {x}
  {
    var r := Insert(x, s);
    if |s| == 0 {
    } else if LexLess(x, s[0]) {
      forall j | 0 <= j < |s| ensures LexLess(x, s[j]) {
        if j > 0 { LexTransitive(x, s[0], s[j]); }
      }
    } else {
      LexTrichotomy(x, s[0]);
      var rest := Insert(x, s[1..]);
      InsertSorted(x, s[1..]);
      forall j | 0 <= j < |rest| ensures LexLess(s[0], rest[j]) {
        assert rest[j] in Elements(rest);
        if rest[j] != x {
          var i :| 0 <= i < |s[1..]| && s[1..][i] == rest[j];
          assert s[i + 1] == rest[j];
        }
      }
      TailElements(s);
      assert Elements(r) == Elements(rest) + {s[0]};
    }
  }

  ghost predicate Distinct<T>(s: seq<T>) {
    forall i, j :: 0 <= i < j < |s| ==> s[i] != s[j]
  }

  lemma {:induction false} SortSorted(s: seq<Bytes>)
    requires Distinct(s)
    ensures StrictlySorted(Sort(s)) && Elements(Sort(s)) == Elements(s)
  {
    if |s| == 0 {
    } else {
      var rest := s[1..];
      SortSorted(rest);
      assert s[0] !in rest;
      assert s[0] !in Elements(Sort(rest));
      InsertSorted(s[0], Sort(rest));
      assert Elements(s) == Elements(rest) + {s[0]} by {
        assert s == [s[0]] + rest;
      }
    }
  }

  /** The one strictly sorted list of a finite set of strings. */
  ghost function SortedList(s: set<Bytes>): (r: seq<Bytes>)
    ensures StrictlySorted(r) && Elements(r) == s
  {
    if s == {} then []
    else
      var x :| x in s;
      var rest := SortedList(s - {x});
      InsertSorted(x, rest);
      Insert(x, rest)
  }

  /** A sorted list is as long as the set it lists. */
  lemma {:induction false} AscendingSize(s: seq<Bytes>)
    requires StrictlySorted(s)
    ensures |s| == |Elements(s)|
  {
    if |s| == 0 {
    } else {
      TailElements(s);
      AscendingSize(s[1..]);
    }
  }
}
