/**
 Base64 with the URL-safe alphabet and padding (section 5 of RFC 4648), as web/license.py
 uses it: padding stripped when a key is printed and restored when it is read.
 */
module Base64Url {
  import opened Prelude
  import opened Text

  type byte = b: int | 0 <= b < 256
  type sextet = v: int | 0 <= v < 64

  function Symbol(v: sextet): char {
    if v < 26 then (65 + v) as char
    else if v < 52 then (97 + v - 26) as char
    else if v < 62 then (48 + v - 52) as char
    else if v == 62 then '-' else '_'
  }

  /** The decoder's table; it takes the standard alphabet's two symbols as well. */
  function ValueOf(c: char): Option<sextet> {
    if 'A' <= c <= 'Z' then Some(c as int - 65)
    else if 'a' <= c <= 'z' then Some(c as int - 97 + 26)
    else if '0' <= c <= '9' then Some(c as int - 48 + 52)
    else if c == '-' || c == '+' then Some(62)
    else if c == '_' || c == '/' then Some(63)
    else None
  }

  predicate IsPad(c: char) {
    c == '='
  }

  function Two(b: byte): (s: string)
    ensures |s| == 2
  {
    [Symbol(b / 4), Symbol(b % 4 * 16)]
  }

  function Three(b: byte, c: byte): (s: string)
    ensures |s| == 3
  {
    [Symbol(b / 4), Symbol(b % 4 * 16 + c / 16), Symbol(c % 16 * 4)]
  }

  function Four(b: byte, c: byte, d: byte): (s: string)
    ensures |s| == 4
  {
    [Symbol(b / 4), Symbol(b % 4 * 16 + c / 16), Symbol(c % 16 * 4 + d / 64), Symbol(d % 64)]
  }

  /** `urlsafe_b64encode`. */
  function Encode(bs: seq<byte>): string {
    if bs == [] then ""
    else if |bs| == 1 then Two(bs[0]) + "=="
    else if |bs| == 2 then Three(bs[0], bs[1]) + "="
    else Four(bs[0], bs[1], bs[2]) + Encode(bs[3..])
  }

  /** The decoder between two characters: how many of a group it has, the bits left over, the pads seen. */
  datatype Decoder = Decoder(quad: nat, left: int, pads: nat) {
    predicate Ok() {
      quad < 4 && 0 <= left && (quad == 1 ==> left < 64) && (quad == 2 ==> left < 16) && (quad == 3 ==> left < 4)
    }
  }

  function Prepend(b: byte, rest: Option<seq<byte>>): Option<seq<byte>> {
    if rest.Some? then Some([b] + rest.value) else None
  }

  /**
   `urlsafe_b64decode`, which is lenient: characters outside the alphabet are skipped, enough
   padding ends the input, and None is the error for an incomplete last group.
   */
  function Decode(s: string, d: Decoder := Decoder(0, 0, 0)): Option<seq<byte>>
    requires d.Ok()
    decreases |s|
  {
    if s == "" then if d.quad == 0 then Some([]) else None
    else if s[0] == '=' then
      if d.quad >= 2 && d.quad + d.pads + 1 >= 4 then Some([])
      else Decode(s[1..], if d.quad >= 2 then d.(pads := d.pads + 1) else d)
    else if ValueOf(s[0]).None? then Decode(s[1..], d)
    else
      var v := ValueOf(s[0]).value;
      if d.quad == 0 then Decode(s[1..], Decoder(1, v, 0))
      else if d.quad == 1 then Prepend(d.left * 4 + v / 16, Decode(s[1..], Decoder(2, v % 16, 0)))
      else if d.quad == 2 then Prepend(d.left * 16 + v / 4, Decode(s[1..], Decoder(3, v % 4, 0)))
      else Prepend(d.left * 64 + v, Decode(s[1..], Decoder(0, 0, 0)))
  }

  /** What `verify_license_key` appends before decoding. */
  function Restored(s: string): string {
    var pad := 4 - |s| % 4;
    if pad == 4 then s else s + seq(pad, i => '=')
  }

  lemma SymbolHasValue(v: sextet)
    ensures ValueOf(Symbol(v)) == Some(v) && Symbol(v) != '=' && Symbol(v) != '.'
  {
  }

  lemma {:induction false} DecodeStep(v: sextet, rest: string, d: Decoder)
    requires d.Ok()
    ensures Decode([Symbol(v)] + rest, d) ==
            if d.quad == 0 then Decode(rest, Decoder(1, v, 0))
            else if d.quad == 1 then Prepend(d.left * 4 + v / 16, Decode(rest, Decoder(2, v % 16, 0)))
            else if d.quad == 2 then Prepend(d.left * 16 + v / 4, Decode(rest, Decoder(3, v % 4, 0)))
            else Prepend(d.left * 64 + v, Decode(rest, Decoder(0, 0, 0)))
  {
    hide Symbol, ValueOf;
    SymbolHasValue(v);
    var s := [Symbol(v)] + rest;
    assert s[0] == Symbol(v) && s[1..] == rest;
  }

  lemma DecodeFour(b: byte, c: byte, d: byte, rest: string)
    ensures Decode(Four(b, c, d) + rest) == Prepend(b, Prepend(c, Prepend(d, Decode(rest))))
  {
    hide Decode, Symbol, ValueOf;
    var v0, v1, v2, v3 := b / 4, b % 4 * 16 + c / 16, c % 16 * 4 + d / 64, d % 64;
    var r3 := [Symbol(v3)] + rest;
    var r2 := [Symbol(v2)] + r3;
    var r1 := [Symbol(v1)] + r2;
    assert Four(b, c, d) + rest == [Symbol(v0)] + r1;
    DecodeStep(v0, r1, Decoder(0, 0, 0));
    DecodeStep(v1, r2, Decoder(1, v0, 0));
    DecodeStep(v2, r3, Decoder(2, v1 % 16, 0));
    DecodeStep(v3, rest, Decoder(3, v2 % 4, 0));
  }

  lemma DecodeTwo(b: byte)
    ensures Decode(Two(b) + "==") == Some([b])
  {
    hide Decode, Symbol, ValueOf;
    var v0, v1 := b / 4, b % 4 * 16;
    var r1 := [Symbol(v1)] + "==";
    assert Two(b) + "==" == [Symbol(v0)] + r1;
    DecodePads();
    DecodeStep(v0, r1, Decoder(0, 0, 0));
    DecodeStep(v1, "==", Decoder(1, v0, 0));
    assert v0 * 4 + v1 / 16 == b && v1 % 16 == 0 && [b] + [] == [b];
  }

  lemma DecodeThree(b: byte, c: byte)
    ensures Decode(Three(b, c) + "=") == Some([b, c])
  {
    hide Decode, Symbol, ValueOf;
    var v0, v1, v2 := b / 4, b % 4 * 16 + c / 16, c % 16 * 4;
    var r2 := [Symbol(v2)] + "=";
    var r1 := [Symbol(v1)] + r2;
    assert Three(b, c) + "=" == [Symbol(v0)] + r1;
    DecodePads();
    DecodeStep(v0, r1, Decoder(0, 0, 0));
    DecodeStep(v1, r2, Decoder(1, v0, 0));
    DecodeStep(v2, "=", Decoder(2, v1 % 16, 0));
    assert v0 * 4 + v1 / 16 == b && v1 % 16 * 16 + v2 / 4 == c && v2 % 4 == 0;
    assert [c] + [] == [c] && [b] + [c] == [b, c];
  }

  lemma DecodePads()
    ensures Decode("==", Decoder(2, 0, 0)) == Decode("=", Decoder(3, 0, 0)) == Some([])
  {
    assert "=="[1..] == "=";
  }

  /** A character outside the alphabet is skipped, wherever it stands, and so is padding before two symbols of a group. */
  lemma ForeignIsSkipped(c: char, rest: string, d: Decoder)
    requires d.Ok() && (if c == '=' then d.quad < 2 else c !in "-_+/" && !('A' <= c <= 'Z') && !('a' <= c <= 'z') && !('0' <= c <= '9'))
    ensures Decode([c] + rest, d) == Decode(rest, d)
  {
    assert ([c] + rest)[0] == c && ([c] + rest)[1..] == rest;
  }

  /** The two symbols of the standard alphabet are read like their URL-safe counterparts. */
  lemma StandardAlphabetToo(rest: string, d: Decoder)
    requires d.Ok()
    ensures Decode(['+'] + rest, d) == Decode(['-'] + rest, d) && Decode(['/'] + rest, d) == Decode(['_'] + rest, d)
  {
    assert (['+'] + rest)[1..] == (['-'] + rest)[1..] == (['/'] + rest)[1..] == (['_'] + rest)[1..] == rest;
  }

  /** The last group must be complete: short of its padding it is an error, and what follows the padding is not read. */
  lemma LastGroup(b: byte, c: byte, rest: string)
    ensures Decode(Two(b)) == None && Decode(Two(b) + "=") == None && Decode(Three(b, c)) == None
    ensures Decode(Two(b) + ("==" + rest)) == Some([b])
    ensures Decode(Three(b, c) + ("=" + rest)) == Some([b, c])
  {
    hide Symbol, ValueOf;
    OpenGroup(b, c, "");
    OpenGroup(b, c, "=");
    OpenGroup(b, c, "==" + rest);
    OpenGroup(b, c, "=" + rest);
    assert Two(b) + "" == Two(b) && Three(b, c) + "" == Three(b, c);
    assert "="[1..] == "" && ("==" + rest)[0] == '=' && ("==" + rest)[1..] == "=" + rest && ("=" + rest)[0] == '=';
    assert [b] + [] == [b] && [c] + [] == [c] && [b] + [c] == [b, c];
  }

  lemma OpenGroup(b: byte, c: byte, rest: string)
    ensures Decode(Two(b) + rest) == Prepend(b, Decode(rest, Decoder(2, 0, 0)))
    ensures Decode(Three(b, c) + rest) == Prepend(b, Prepend(c, Decode(rest, Decoder(3, 0, 0))))
  {
    hide Decode, Symbol, ValueOf;
    var v0, v1, v2, w1 := b / 4, b % 4 * 16 + c / 16, c % 16 * 4, b % 4 * 16;
    assert Two(b) + rest == [Symbol(v0)] + ([Symbol(w1)] + rest);
    DecodeStep(v0, [Symbol(w1)] + rest, Decoder(0, 0, 0));
    DecodeStep(w1, rest, Decoder(1, v0, 0));
    assert Three(b, c) + rest == [Symbol(v0)] + ([Symbol(v1)] + ([Symbol(v2)] + rest));
    DecodeStep(v0, [Symbol(v1)] + ([Symbol(v2)] + rest), Decoder(0, 0, 0));
    DecodeStep(v1, [Symbol(v2)] + rest, Decoder(1, v0, 0));
    DecodeStep(v2, rest, Decoder(2, v1 % 16, 0));
  }

  /** Decoding undoes encoding, for every payload. */
  lemma {:induction false} DecodeEncode(bs: seq<byte>)
    ensures Decode(Encode(bs)) == Some(bs)
    decreases |bs|
  {
    hide Decode, Four, Two, Three;
    if |bs| == 0 {
      DecodeNothing();
    } else if |bs| == 1 {
      DecodeTwo(bs[0]);
      assert bs == [bs[0]];
    } else if |bs| == 2 {
      DecodeThree(bs[0], bs[1]);
      assert bs == [bs[0], bs[1]];
    } else {
      DecodeEncode(bs[3..]);
      DecodeFour(bs[0], bs[1], bs[2], Encode(bs[3..]));
      assert bs == [bs[0]] + ([bs[1]] + ([bs[2]] + bs[3..]));
    }
  }

  lemma DecodeNothing()
    ensures Decode("") == Some([])
  {
  }

  lemma {:induction false} RStripPads(s: string, n: nat)
    requires s == "" || !IsPad(s[|s| - 1])
    ensures RStrip(s + seq(n, i => '='), IsPad) == s
  {
    var t := s + seq(n, i => '=');
    if n == 0 {
      assert t == s;
    } else {
      assert t[..|t| - 1] == s + seq(n - 1, i => '=');
      RStripPads(s, n - 1);
    }
  }

  lemma GroupsAreSymbols(b: byte, c: byte, d: byte, x: char)
    requires x in Two(b) || x in Three(b, c) || x in Four(b, c, d)
    ensures x != '=' && x != '.'
  {
    hide Symbol, ValueOf;
    SymbolHasValue(b / 4);
    SymbolHasValue(b % 4 * 16);
    SymbolHasValue(b % 4 * 16 + c / 16);
    SymbolHasValue(c % 16 * 4);
    SymbolHasValue(c % 16 * 4 + d / 64);
    SymbolHasValue(d % 64);
  }

  /** An encoding is symbols, none of them a pad or a dot, and then as many pads as complete the last group. */
  lemma {:induction false} EncodeShape(bs: seq<byte>) returns (symbols: string, n: nat)
    ensures Encode(bs) == symbols + seq(n, i => '=') && n < 3
    ensures forall c | c in symbols :: c != '=' && c != '.'
    ensures (|symbols| + n) % 4 == 0
    decreases |bs|
  {
    hide Two, Three, Four;
    if |bs| == 0 {
      symbols, n := "", 0;
    } else if |bs| == 1 {
      symbols, n := Two(bs[0]), 2;
      forall c | c in symbols ensures c != '=' && c != '.' { GroupsAreSymbols(bs[0], 0, 0, c); }
    } else if |bs| == 2 {
      symbols, n := Three(bs[0], bs[1]), 1;
      forall c | c in symbols ensures c != '=' && c != '.' { GroupsAreSymbols(bs[0], bs[1], 0, c); }
    } else {
      var rest, m := EncodeShape(bs[3..]);
      symbols, n := Four(bs[0], bs[1], bs[2]) + rest, m;
      forall c | c in Four(bs[0], bs[1], bs[2]) ensures c != '=' && c != '.' {
        GroupsAreSymbols(bs[0], bs[1], bs[2], c);
      }
    }
  }

  lemma PadsComplete(symbols: string, n: nat)
    requires n < 3 && (|symbols| + n) % 4 == 0
    ensures Restored(symbols) == symbols + seq(n, i => '=')
  {
    assert |symbols| % 4 == (4 - n) % 4;
    assert n == 0 ==> symbols + seq(n, i => '=') == symbols;
  }

  /** Stripping the padding and restoring it gives back the encoding, for every payload length. */
  lemma {:induction false} StripThenRestore(bs: seq<byte>)
    ensures Restored(RStrip(Encode(bs), IsPad)) == Encode(bs)
    ensures '.' !in RStrip(Encode(bs), IsPad)
  {
    hide Encode, Restored;
    var symbols, n := EncodeShape(bs);
    assert symbols != "" ==> symbols[|symbols| - 1] in symbols;
    RStripPads(symbols, n);
    PadsComplete(symbols, n);
  }
}
