/** Strict UTF-8, as `bytes.decode("utf-8")` and `str.encode("utf-8")` apply it to a log file. */
module Utf8 {
  import opened Options

  type Byte = b: int | 0 <= b < 256
  type Bytes = seq<Byte>

  const NEWLINE: Byte := 10

  function EncodeChar(c: char): (r: Bytes)
    ensures 1 <= |r| <= 4
  {
    var n := c as int;
    if n < 0x80 then [n]
    else if n < 0x800 then [0xC0 + n / 64, 0x80 + n % 64]
    else if n < 0x10000 then [0xE0 + n / 4096, 0x80 + n / 64 % 64, 0x80 + n % 64]
    else [0xF0 + n / 262144, 0x80 + n / 4096 % 64, 0x80 + n / 64 % 64, 0x80 + n % 64]
  }

  function Encode(s: string): Bytes {
    if s == "" then [] else EncodeChar(s[0]) + Encode(s[1..])
  }

  predicate IsContinuation(b: Byte) {
    0x80 <= b < 0xC0
  }

  /** How many bytes a lead byte announces, or 0 where it announces nothing valid. */
  function Width(lead: Byte): nat {
    if lead < 0x80 then 1
    else if 0xC2 <= lead < 0xE0 then 2
    else if 0xE0 <= lead < 0xF0 then 3
    else if 0xF0 <= lead < 0xF5 then 4
    else 0
  }

  predicate IsScalar(n: int) {
    0 <= n < 0xD800 || 0xE000 <= n < 0x110000
  }

  /** The bytes a lead byte of width `w` asks for are there and are continuation bytes. */
  predicate Complete(b: Bytes, w: nat) {
    && 1 <= w <= |b|
    && (w >= 2 ==> IsContinuation(b[1]))
    && (w >= 3 ==> IsContinuation(b[2]))
    && (w >= 4 ==> IsContinuation(b[3]))
  }

  function CodePoint(b: Bytes, w: nat): int
    requires 1 <= w <= 4 && Complete(b, w)
  {
    var lead, low := b[0] as int, b[w - 1] as int - 0x80;
    if w == 1 then lead
    else if w == 2 then (lead - 0xC0) * 64 + low
    else if w == 3 then (lead - 0xE0) * 4096 + (b[1] as int - 0x80) * 64 + low
    else (lead - 0xF0) * 262144 + (b[1] as int - 0x80) * 4096 + (b[2] as int - 0x80) * 64 + low
  }

  /** Below this a character of width `w` is overlong. */
  function Least(w: nat): int {
    if w <= 1 then 0 else if w == 2 then 0x80 else if w == 3 then 0x800 else 0x10000
  }

  /** The first character and its width; none for a truncated, overlong, surrogate or oversized form. */
  function First(b: Bytes): (r: Option<(char, nat)>)
    requires b != []
    ensures r.Some? ==> 1 <= r.value.1 <= |b| && r.value.1 == Width(b[0]) && Complete(b, r.value.1)
  {
    var w := Width(b[0]);
    if !Complete(b, w) then None
    else
      var n := CodePoint(b, w);
      if IsScalar(n) && n >= Least(w) then Some((n as char, w)) else None
  }

  function Decode(b: Bytes): Option<string> {
    if b == [] then Some("")
    else match First(b)
      case None => None
      case Some((c, w)) =>
        match Decode(b[w..])
        case None => None
        case Some(rest) => Some([c] + rest)
  }

  lemma EncodedCodePoint(c: char)
    ensures var e := EncodeChar(c);
      && Width(e[0]) == |e| && Complete(e, |e|)
      && CodePoint(e, |e|) == c as int && IsScalar(c as int) && Least(|e|) <= c as int
  {
    var n := c as int;
    assert n / 64 / 64 == n / 4096;
    assert n / 4096 / 64 == n / 262144;
  }

  lemma FirstOfEncoded(c: char, rest: Bytes)
    ensures First(EncodeChar(c) + rest) == Some((c, |EncodeChar(c)|))
  {
    var e := EncodeChar(c);
    EncodedCodePoint(c);
    SameLead(e, rest);
  }

  /** A complete first character is read the same whatever follows. */
  lemma SameLead(e: Bytes, rest: Bytes)
    requires e != [] && Width(e[0]) > 0 && Complete(e, Width(e[0]))
    ensures Complete(e + rest, Width(e[0])) && CodePoint(e + rest, Width(e[0])) == CodePoint(e, Width(e[0]))
  {
    var b := e + rest;
    assert b[0] == e[0];
    assert forall i :: 0 <= i < |e| ==> b[i] == e[i];
  }

  /** Encoding is undone by decoding, whatever follows. */
  lemma {:induction false} DecodeEncode(s: string)
    ensures Decode(Encode(s)) == Some(s)
  {
    if s != "" {
      FirstOfEncoded(s[0], Encode(s[1..]));
      assert Encode(s)[|EncodeChar(s[0])|..] == Encode(s[1..]);
      DecodeEncode(s[1..]);
      assert s == [s[0]] + s[1..];
    }
  }

  lemma FirstEncodes(b: Bytes)
    requires b != [] && First(b).Some?
    ensures EncodeChar(First(b).value.0) == b[..First(b).value.1]
  {
    var w := Width(b[0]);
    if w == 3 {
      ThreeEncode(b);
    } else if w == 4 {
      FourEncode(b);
    }
  }

  lemma ThreeEncode(b: Bytes)
    requires b != [] && First(b).Some? && Width(b[0]) == 3
    ensures EncodeChar(First(b).value.0) == b[..3]
  {
    var n := CodePoint(b, 3);
    var lead: int, middle: int, low: int := b[0] as int - 0xE0, b[1] as int - 0x80, b[2] as int - 0x80;
    Sextets(n, lead * 64 + middle, low);
    Sextets(lead * 64 + middle, lead, middle);
    assert n / 4096 == n / 64 / 64;
  }

  lemma FourEncode(b: Bytes)
    requires b != [] && First(b).Some? && Width(b[0]) == 4
    ensures EncodeChar(First(b).value.0) == b[..4]
  {
    var n := CodePoint(b, 4);
    var lead: int, second: int := b[0] as int - 0xF0, b[1] as int - 0x80;
    var third: int, low: int := b[2] as int - 0x80, b[3] as int - 0x80;
    var two := lead * 64 + second;
    Sextets(n, two * 64 + third, low);
    Sextets(two * 64 + third, two, third);
    Sextets(two, lead, second);
    assert n / 4096 == n / 64 / 64 && n / 262144 == n / 64 / 64 / 64;
  }

  lemma Sextets(n: int, q: int, r: int)
    requires n == q * 64 + r && 0 <= r < 64
    ensures n / 64 == q && n % 64 == r
  {
  }

  /** Decoding is strict: only the encoding of a text decodes to it. */
  lemma {:induction false} EncodeDecode(b: Bytes)
    requires Decode(b).Some?
    ensures Encode(Decode(b).value) == b
    decreases |b|
  {
    if b != [] {
      var (c, w) := First(b).value;
      FirstEncodes(b);
      EncodeDecode(b[w..]);
      assert b == b[..w] + b[w..];
    }
  }

  lemma {:induction false} EncodeConcat(s: string, t: string)
    ensures Encode(s + t) == Encode(s) + Encode(t)
  {
    if s == "" {
      assert s + t == t;
    } else {
      assert (s + t)[1..] == s[1..] + t;
      EncodeConcat(s[1..], t);
    }
  }

  ghost predicate EndsLine(b: Bytes) {
    b == [] || b[|b| - 1] == NEWLINE
  }

  /** No character straddles a newline byte: bytes that end a line decode on their own. */
  lemma {:induction false} DecodeSplitsAtNewline(a: Bytes, b: Bytes)
    requires EndsLine(a)
    ensures Decode(a + b)
         == if Decode(a).Some? && Decode(b).Some? then Some(Decode(a).value + Decode(b).value) else None
  {
    if a == [] {
      assert a + b == b;
      assert Decode(b).Some? ==> "" + Decode(b).value == Decode(b).value;
    } else {
      FirstIsLocal(a, b);
      match First(a)
      case None =>
      case Some((c, w)) =>
        assert (a + b)[w..] == a[w..] + b;
        DecodeSplitsAtNewline(a[w..], b);
        if Decode(a[w..]).Some? && Decode(b).Some? {
          assert [c] + (Decode(a[w..]).value + Decode(b).value) == [c] + Decode(a[w..]).value + Decode(b).value;
        }
    }
  }

  /** Nor does it straddle the start of bytes that decode on their own. */
  lemma {:induction false} DecodeSplitsBeforeText(a: Bytes, b: Bytes)
    requires b != [] && Decode(b).Some? && Decode(a + b).Some?
    ensures Decode(a).Some? && Decode(a + b).value == Decode(a).value + Decode(b).value
    decreases |a|
  {
    if a == [] {
      assert a + b == b;
      assert "" + Decode(b).value == Decode(b).value;
    } else {
      DecodeSteps(a + b);
      var w := First(a + b).value.1;
      FirstEndsBeforeText(a, b);
      assert (a + b)[w..] == a[w..] + b;
      DecodeSplitsBeforeText(a[w..], b);
      DecodeOneMore(a, Decode(a[w..]).value);
      var c := First(a + b).value.0;
      assert [c] + (Decode(a[w..]).value + Decode(b).value) == [c] + Decode(a[w..]).value + Decode(b).value;
    }
  }

  lemma FirstEndsBeforeText(a: Bytes, b: Bytes)
    requires a != [] && b != [] && First(b).Some? && First(a + b).Some?
    ensures First(a + b).value.1 <= |a| && First(a) == First(a + b)
  {
    var ab, w := a + b, First(a + b).value.1;
    assert forall i :: 0 <= i < |a| ==> ab[i] == a[i];
    assert ab[|a|] == b[0] && !IsContinuation(b[0]);
    assert w <= |a|;
    SameLead(a, b);
  }

  lemma DecodeOneMore(b: Bytes, rest: string)
    requires b != [] && First(b).Some? && Decode(b[First(b).value.1..]) == Some(rest)
    ensures Decode(b) == Some([First(b).value.0] + rest)
  {
  }

  lemma FirstIsLocal(a: Bytes, b: Bytes)
    requires a != [] && EndsLine(a)
    ensures First(a + b) == First(a)
  {
    var w := Width(a[0]);
    var ab := a + b;
    assert forall i :: 0 <= i < |a| ==> ab[i] == a[i];
    if Complete(a, w) {
      SameLead(a, b);
    } else if w > |a| {
      assert !IsContinuation(ab[|a| - 1]);
      assert |a| >= 2 && |a| <= 3;
    }
  }

  function CountNewlineBytes(b: Bytes): nat {
    if b == [] then 0 else (if b[0] == NEWLINE then 1 else 0) + CountNewlineBytes(b[1..])
  }

  function CountNewlines(s: string): nat {
    if s == "" then 0 else (if s[0] == '\n' then 1 else 0) + CountNewlines(s[1..])
  }

  lemma {:induction false} SkipContinuations(b: Bytes, w: nat)
    requires w <= |b| && forall i :: 0 <= i < w ==> b[i] != NEWLINE
    ensures CountNewlineBytes(b) == CountNewlineBytes(b[w..])
  {
    if w > 0 {
      SkipContinuations(b[1..], w - 1);
      assert b[1..][w - 1..] == b[w..];
    }
  }

  /** Newline bytes and newline characters are the same count. */
  lemma {:induction false} NewlinesAgree(b: Bytes)
    requires Decode(b).Some?
    ensures CountNewlineBytes(b) == CountNewlines(Decode(b).value)
  {
    if b != [] {
      var (c, w) := First(b).value;
      var text := Decode(b).value;
      assert text[1..] == Decode(b[w..]).value;
      NewlinesAgree(b[w..]);
      if w > 1 {
        SkipContinuations(b, w);
      }
    }
  }

  /** A character that fills the bytes is a newline exactly when its last byte is one. */
  lemma LastByteOfFirst(b: Bytes)
    requires b != [] && First(b).Some? && First(b).value.1 == |b|
    ensures b[|b| - 1] == NEWLINE <==> First(b).value.0 == '\n'
  {
  }

  lemma DecodeSteps(b: Bytes)
    requires Decode(b).Some? && b != []
    ensures First(b).Some? && Decode(b[First(b).value.1..]).Some?
    ensures Decode(b).value == [First(b).value.0] + Decode(b[First(b).value.1..]).value
  {
  }

  /** Text that ends in a newline comes from bytes that end in one, and the other way round. */
  lemma {:induction false} LastCharacter(b: Bytes)
    requires Decode(b).Some? && b != []
    ensures Decode(b).value != ""
    ensures b[|b| - 1] == NEWLINE <==> Decode(b).value[|Decode(b).value| - 1] == '\n'
  {
    DecodeSteps(b);
    var w := First(b).value.1;
    if w < |b| {
      LastCharacter(b[w..]);
    } else {
      LastByteOfFirst(b);
      assert b[w..] == [];
    }
  }
}
