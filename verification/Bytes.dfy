/** Bytes, and what reading a prefix of them can answer. */
module Bytes {
  type byte = x: int | 0 <= x < 256

  type bytes = seq<byte>

  const QUOTE: byte := 34
  const BACKSLASH: byte := 92
  const SLASH: byte := 47
  const COMMA: byte := 44
  const COLON: byte := 58
  const DOT: byte := 46
  const PLUS: byte := 43
  const MINUS: byte := 45
  const ZERO: byte := 48
  const NINE: byte := 57
  const OPEN_BRACE: byte := 123
  const SHUT_BRACE: byte := 125
  const OPEN_BRACKET: byte := 91
  const SHUT_BRACKET: byte := 93
  const SPACE: byte := 32
  const NEWLINE: byte := 10

  /** What was read and the bytes after it; or the word of a refusal, and how many bytes were left at it. */
  datatype Parse<+T> = Done(value: T, rest: bytes) | Refused(word: string, left: nat)

  /** The byte at the front, or zero at the end: the source's reader does not tell a zero byte from the end. */
  function Front(s: bytes): byte {
    if s == [] then 0 else s[0]
  }

  predicate IsDigit(c: byte) {
    ZERO <= c <= NINE
  }

  predicate AllDigits(ds: bytes) {
    forall i | 0 <= i < |ds| :: IsDigit(ds[i])
  }

  /** No byte a number could go on with. */
  predicate Ends(t: bytes) {
    Front(t) != DOT && Front(t) != 101 && Front(t) != 69 && !IsDigit(Front(t))
  }

  predicate IsWs(c: byte) {
    c == 32 || c == 9 || c == 10 || c == 13
  }

  predicate AllWs(s: bytes) {
    forall i | 0 <= i < |s| :: IsWs(s[i])
  }

  function WsLength(s: bytes): (n: nat)
    ensures n <= |s| && AllWs(s[..n]) && (n < |s| ==> !IsWs(s[n]))
  {
    if s != [] && IsWs(s[0]) then
      var n := WsLength(s[1..]);
      assert s[..n + 1] == [s[0]] + s[1..][..n];
      n + 1
    else 0
  }

  function Ws(s: bytes): (rest: bytes)
    ensures |rest| <= |s| && !IsWs(Front(rest))
  {
    s[WsLength(s)..]
  }

  /** What was read, when `rest` is left of s. */
  function Taken(s: bytes, rest: bytes): bytes
    requires |rest| <= |s|
  {
    s[..|s| - |rest|]
  }

  lemma {:induction false} WsSkips(w: bytes, t: bytes)
    requires AllWs(w)
    ensures Ws(w + t) == Ws(t)
  {
    if w == [] {
      assert w + t == t;
    } else {
      assert (w + t)[1..] == w[1..] + t;
      WsSkips(w[1..], t);
      assert Ws(w + t) == Ws(w[1..] + t);
    }
  }

  lemma WsStays(t: bytes)
    requires !IsWs(Front(t))
    ensures Ws(t) == t
  {
  }

  lemma WsSplits(s: bytes)
    ensures s == Taken(s, Ws(s)) + Ws(s) && AllWs(Taken(s, Ws(s)))
  {
  }

  lemma WsTwice(s: bytes)
    ensures Ws(Ws(s)) == Ws(s)
  {
    WsStays(Ws(s));
  }

  lemma Assoc3(a: bytes, b: bytes, c: bytes)
    ensures a + b + c == a + (b + c)
  {
  }

  lemma Assoc4(a: bytes, b: bytes, c: bytes, d: bytes)
    ensures a + b + c + d == a + (b + (c + d))
  {
  }

  lemma Assoc5(a: bytes, b: bytes, c: bytes, d: bytes, e: bytes)
    ensures a + b + c + d + e == a + (b + (c + (d + e)))
  {
  }
}
