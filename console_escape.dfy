/**
 * The printable escaping that the console bridge applies to every chunk of
 * bytes read from the VM's serial socket (`convert_to_hex`), and a strict
 * decoder that inverts it.
 */
module ConsoleEscape {
  import opened Base

  const LowerHexDigits: string := "0123456789abcdef"

  function HexDigit(n: nat): (c: char)
    requires n < 16
    ensures IsHexDigit(c) && HexValue(c) == n
  {
    LowerHexDigits[n]
  }

  /** Characters `%02x` can print: digits and lower-case `a`..`f`. */
  predicate IsHexDigit(c: char) {
    ('0' <= c <= '9') || ('a' <= c <= 'f')
  }

  function HexValue(c: char): (n: nat)
    requires IsHexDigit(c)
    ensures n < 16 && LowerHexDigits[n] == c
  {
    if '0' <= c <= '9' then c as int - '0' as int else c as int - 'a' as int + 10
  }

  /** A byte the console shows as itself: 32..126. */
  predicate IsPrintable(b: int) {
    32 <= b < 127
  }

  /** The three quoting-significant bytes: `'`, `"` and `\`. */
  predicate IsQuote(b: int) {
    b == '\'' as int || b == '"' as int || b == '\\' as int
  }

  /** The escape of one byte: `\xHH`, a backslash before a quote, or the byte itself. */
  function EscapeByte(b: Byte): string {
    if b >= 127 || b < 32 then ['\\', 'x', HexDigit(b / 16), HexDigit(b % 16)]
    else if IsQuote(b) then ['\\', b as char]
    else [b as char]
  }

  /** `convert_to_hex` as a function: the escapes of the bytes, in order. */
  function Escape(bs: seq<Byte>): string {
    if bs == [] then [] else EscapeByte(bs[0]) + Escape(bs[1..])
  }

  /**
   * `convert_to_hex(buffer, r)`: appends the escape of each of the first
   * `r` bytes to `hex`; a count of zero or less gives the empty string.
   */
  method ConvertToHex(buffer: array<Byte>, r: int) returns (hex: string)
    requires r <= buffer.Length
    ensures hex == Escape(buffer[..Max(r, 0)])
  {
    hex := "";
    var i := 0;
    while i < r
      invariant 0 <= i <= Max(r, 0)
      invariant hex == Escape(buffer[..i])
    {
      assert buffer[..i + 1] == buffer[..i] + [buffer[i]];
      EscapeSnoc(buffer[..i], buffer[i]);
      hex := hex + EscapeByte(buffer[i]);
      i := i + 1;
    }
  }

  /** The shape of one byte's escape, stated as what a reader of the console sees. */
  lemma EscapeByteShape(b: Byte)
    ensures !IsPrintable(b) ==>
      |EscapeByte(b)| == 4 && EscapeByte(b)[..2] == "\\x"
      && IsHexDigit(EscapeByte(b)[2]) && IsHexDigit(EscapeByte(b)[3])
      && HexValue(EscapeByte(b)[2]) * 16 + HexValue(EscapeByte(b)[3]) == b
    ensures IsPrintable(b) && IsQuote(b) ==> EscapeByte(b) == ['\\', b as char]
    ensures IsPrintable(b) && !IsQuote(b) ==> EscapeByte(b) == [b as char]
  {
  }

  /** Streaming safety: escaping two chunks separately gives the escape of their concatenation. */
  lemma {:induction false} EscapeConcat(a: seq<Byte>, b: seq<Byte>)
    ensures Escape(a + b) == Escape(a) + Escape(b)
    decreases |a|
  {
    if a == [] {
      assert a + b == b;
    } else {
      assert (a + b)[0] == a[0];
      assert (a + b)[1..] == a[1..] + b;
      EscapeConcat(a[1..], b);
    }
  }

  /** Escaping works byte by byte, so a leading byte contributes its own escape first. */
  lemma EscapeCons(b: Byte, rest: seq<Byte>)
    ensures Escape([b] + rest) == EscapeByte(b) + Escape(rest)
  {
    assert ([b] + rest)[1..] == rest;
  }

  /** Appending one byte appends its escape. */
  lemma EscapeSnoc(bs: seq<Byte>, b: Byte)
    ensures Escape(bs + [b]) == Escape(bs) + EscapeByte(b)
  {
    EscapeConcat(bs, [b]);
    EscapeCons(b, []);
    assert [b] + [] == [b];
  }

  /** Every byte contributes 1, 2 or 4 characters, so the output is between 1 and 4 times the input. */
  lemma {:induction false} EscapeLength(bs: seq<Byte>)
    ensures |bs| <= |Escape(bs)| <= 4 * |bs|
  {
    if bs != [] {
      EscapeLength(bs[1..]);
    }
  }

  /** Every character of an escaped string is printable ASCII. */
  lemma {:induction false} EscapePrintable(bs: seq<Byte>)
    ensures forall i :: 0 <= i < |Escape(bs)| ==> IsPrintable(Escape(bs)[i] as int)
  {
    if bs != [] {
      EscapePrintable(bs[1..]);
      var e := EscapeByte(bs[0]);
      assert forall i :: 0 <= i < |e| ==> IsPrintable(e[i] as int);
    }
  }

  /**
   * Decodes the escape at the front of `s`: the byte and the number of
   * characters it takes. Strict: it accepts exactly what `EscapeByte` produces.
   */
  function DecodeHead(s: string): (r: Option<(Byte, nat)>)
    requires s != []
    ensures r.Some? ==> 1 <= r.value.1 <= |s|
  {
    if s[0] == '\\' then
      if |s| >= 2 && IsQuote(s[1] as int) then Some((s[1] as int, 2))
      else if |s| >= 4 && s[1] == 'x' && IsHexDigit(s[2]) && IsHexDigit(s[3])
              && !IsPrintable(HexValue(s[2]) * 16 + HexValue(s[3])) then
        Some((HexValue(s[2]) * 16 + HexValue(s[3]), 4))
      else None
    else if IsPrintable(s[0] as int) && !IsQuote(s[0] as int) then Some((s[0] as int, 1))
    else None
  }

  /** Inverse of `Escape`: `None` for any text `Escape` cannot produce. */
  function Unescape(s: string): Option<seq<Byte>>
    decreases |s|
  {
    if s == [] then Some([])
    else match DecodeHead(s)
      case None => None
      case Some((b, n)) =>
        match Unescape(s[n..])
        case None => None
        case Some(rest) => Some([b] + rest)
  }

  lemma DecodeHeadOfEscape(b: Byte, t: string)
    ensures DecodeHead(EscapeByte(b) + t) == Some((b, |EscapeByte(b)|))
  {
    var s := EscapeByte(b) + t;
    if !IsPrintable(b) {
      assert s[2] == HexDigit(b / 16) && s[3] == HexDigit(b % 16);
    }
  }

  lemma DecodeHeadIsEscape(s: string)
    requires s != [] && DecodeHead(s).Some?
    ensures EscapeByte(DecodeHead(s).value.0) == s[..DecodeHead(s).value.1]
  {
    var (b, n) := DecodeHead(s).value;
    if n == 4 {
      assert HexDigit(b / 16) == s[2] && HexDigit(b % 16) == s[3];
    }
  }

  /** Decodability: because `\` never appears bare, the escape can always be undone. */
  lemma {:induction false} UnescapeEscape(bs: seq<Byte>)
    ensures Unescape(Escape(bs)) == Some(bs)
    decreases |bs|
  {
    if bs != [] {
      var b, rest := bs[0], bs[1..];
      assert bs == [b] + rest;
      EscapeCons(b, rest);
      DecodeHeadOfEscape(b, Escape(rest));
      var s := Escape(bs);
      assert s[|EscapeByte(b)|..] == Escape(rest);
      UnescapeEscape(rest);
    } else {
      assert Escape(bs) == [];
    }
  }

  /** The converse: every text the decoder accepts is the escape of what it decodes to. */
  lemma {:induction false} EscapeUnescape(s: string)
    requires Unescape(s).Some?
    ensures Escape(Unescape(s).value) == s
    decreases |s|
  {
    if s == [] {
      assert Unescape(s).value == [];
    } else {
      var b, n, rest := UnescapeStep(s);
      DecodeHeadIsEscape(s);
      EscapeUnescape(s[n..]);
      JoinEscapes(s, b, n, rest);
    }
  }

  /** A byte's escape followed by the escape of the rest is the escape of the whole. */
  lemma JoinEscapes(s: string, b: Byte, n: nat, rest: seq<Byte>)
    requires n <= |s| && EscapeByte(b) == s[..n] && Escape(rest) == s[n..]
    ensures Escape([b] + rest) == s
  {
    EscapeCons(b, rest);
    assert s == s[..n] + s[n..];
  }

  /** One step of a successful decode: the head's byte, its width, and the decode of the rest. */
  lemma UnescapeStep(s: string) returns (b: Byte, n: nat, rest: seq<Byte>)
    requires s != [] && Unescape(s).Some?
    ensures DecodeHead(s) == Some((b, n)) && 1 <= n <= |s|
    ensures Unescape(s[n..]) == Some(rest) && Unescape(s).value == [b] + rest
  {
    b, n := DecodeHead(s).value.0, DecodeHead(s).value.1;
    rest := Unescape(s[n..]).value;
  }

  /** Hence the escape is injective: different byte chunks never print the same. */
  lemma EscapeInjective(a: seq<Byte>, b: seq<Byte>)
    requires Escape(a) == Escape(b)
    ensures a == b
  {
    UnescapeEscape(a);
    UnescapeEscape(b);
  }
}
