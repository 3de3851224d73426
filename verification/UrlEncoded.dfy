// application/x-www-form-urlencoded parsing and serializing, and the URLSearchParams
// constructor over a string, as section 5 of the WHATWG URL Standard defines them.
module UrlEncoded {
  import opened Utf8

  datatype Pair = Pair(name: string, value: string)

  // ---------- serializing ----------

  // Bytes the application/x-www-form-urlencoded percent-encode set leaves alone: * - . _ 0-9 A-Z a-z
  predicate Plain(b: nat) {
    b == 0x2A || b == 0x2D || b == 0x2E || b == 0x5F || 0x30 <= b <= 0x39 || 0x41 <= b <= 0x5A || 0x61 <= b <= 0x7A
  }

  function HexDigit(v: nat): nat
    requires v < 16
  {
    if v < 10 then 0x30 + v else 0x41 + (v - 10)
  }

  function EscapeByte(b: nat): seq<nat> {
    if b == 0x20 then [0x2B]
    else if Plain(b) then [b]
    else [0x25, HexDigit(b / 16 % 16), HexDigit(b % 16)]
  }

  function Escape(bytes: seq<nat>): seq<nat> {
    if bytes == [] then [] else EscapeByte(bytes[0]) + Escape(bytes[1..])
  }

  function PairBytes(p: Pair): seq<nat> {
    Escape(Encode(p.name)) + [0x3D] + Escape(Encode(p.value))
  }

  function SerializeBytes(pairs: seq<Pair>): seq<nat> {
    if pairs == [] then []
    else if |pairs| == 1 then PairBytes(pairs[0])
    else PairBytes(pairs[0]) + [0x26] + SerializeBytes(pairs[1..])
  }

  // ---------- parsing ----------

  predicate IsHex(b: nat) {
    0x30 <= b <= 0x39 || 0x41 <= b <= 0x46 || 0x61 <= b <= 0x66
  }

  function HexValue(b: nat): nat
    requires IsHex(b)
  {
    if b <= 0x39 then b - 0x30 else if b <= 0x46 then b - 0x41 + 10 else b - 0x61 + 10
  }

  // '+' becomes a space, and a '%' with two hex digits the byte they name.
  function Unescape(bytes: seq<nat>): seq<nat> {
    if bytes == [] then []
    else if bytes[0] == 0x25 && |bytes| >= 3 && IsHex(bytes[1]) && IsHex(bytes[2]) then
      [HexValue(bytes[1]) * 16 + HexValue(bytes[2])] + Unescape(bytes[3..])
    else [if bytes[0] == 0x2B then 0x20 else bytes[0]] + Unescape(bytes[1..])
  }

  // The index of the first b, or the length.
  function Find(bytes: seq<nat>, b: nat): (i: nat)
    ensures i <= |bytes| && (i < |bytes| ==> bytes[i] == b)
    ensures forall j :: 0 <= j < i ==> bytes[j] != b
  {
    if bytes == [] || bytes[0] == b then 0 else 1 + Find(bytes[1..], b)
  }

  function ParsePair(bytes: seq<nat>): Pair {
    var i := Find(bytes, 0x3D);
    Pair(Decode(Unescape(bytes[..i])), Decode(Unescape(if i < |bytes| then bytes[i + 1..] else [])))
  }

  // Splits on '&', skipping empty pieces.
  function ParseBytes(bytes: seq<nat>): seq<Pair> {
    if bytes == [] then []
    else
      var i := Find(bytes, 0x26);
      (if i == 0 then [] else [ParsePair(bytes[..i])]) + (if i < |bytes| then ParseBytes(bytes[i + 1..]) else [])
  }

  // new URLSearchParams(s): one leading '?' is dropped.
  function ParseString(s: string): seq<Pair> {
    ParseBytes(Encode(if s != "" && s[0] == '?' then s[1..] else s))
  }

  // ---------- the round trip ----------

  lemma UnescapeByte(b: nat, rest: seq<nat>)
    requires b < 256
    ensures Unescape(EscapeByte(b) + rest) == [b] + Unescape(rest)
  {
    var bytes := EscapeByte(b) + rest;
    if b != 0x20 && !Plain(b) {
      HexDigitValue(b / 16 % 16);
      HexDigitValue(b % 16);
      Nibbles(b);
      assert bytes[3..] == rest;
    } else {
      assert bytes[1..] == rest;
    }
  }

  lemma HexDigitValue(v: nat)
    requires v < 16
    ensures IsHex(HexDigit(v)) && HexValue(HexDigit(v)) == v
  {
  }

  lemma Nibbles(b: nat)
    requires b < 256
    ensures b / 16 % 16 * 16 + b % 16 == b
  {
  }

  lemma {:induction false} UnescapeEscape(bytes: seq<nat>)
    requires forall i :: 0 <= i < |bytes| ==> bytes[i] < 256
    ensures Unescape(Escape(bytes)) == bytes
  {
    if bytes != [] {
      UnescapeByte(bytes[0], Escape(bytes[1..]));
      UnescapeEscape(bytes[1..]);
    }
  }

  // What escaping leaves: no '&', '=' or '?', and nothing beyond ASCII.
  predicate Escaped(b: nat) {
    Plain(b) || b == 0x25 || b == 0x2B
  }

  lemma {:induction false} EscapeIsEscaped(bytes: seq<nat>)
    ensures forall i :: 0 <= i < |Escape(bytes)| ==> Escaped(Escape(bytes)[i])
  {
    if bytes != [] {
      EscapeIsEscaped(bytes[1..]);
    }
  }

  lemma {:induction false} FindAfter(a: seq<nat>, b: nat, rest: seq<nat>)
    requires forall i :: 0 <= i < |a| ==> a[i] != b
    ensures Find(a + [b] + rest, b) == |a|
    ensures Find(a, b) == |a|
  {
    if a != [] {
      assert (a + [b] + rest)[1..] == a[1..] + [b] + rest;
      FindAfter(a[1..], b, rest);
    }
  }

  lemma PairBytesShape(p: Pair)
    ensures |PairBytes(p)| >= 1
    ensures forall i :: 0 <= i < |PairBytes(p)| ==> Escaped(PairBytes(p)[i]) || PairBytes(p)[i] == 0x3D
  {
    EscapeIsEscaped(Encode(p.name));
    EscapeIsEscaped(Encode(p.value));
  }

  lemma ParsePairBytes(p: Pair)
    ensures ParsePair(PairBytes(p)) == p
  {
    var name, value := Escape(Encode(p.name)), Escape(Encode(p.value));
    EscapeIsEscaped(Encode(p.name));
    FindAfter(name, 0x3D, value);
    assert PairBytes(p)[..|name|] == name && PairBytes(p)[|name| + 1..] == value;
    EncodeBytes(p.name);
    EncodeBytes(p.value);
    UnescapeEscape(Encode(p.name));
    UnescapeEscape(Encode(p.value));
    DecodeEncode(p.name);
    DecodeEncode(p.value);
  }

  lemma ParseOneMore(p: Pair, rest: seq<nat>)
    ensures ParseBytes(PairBytes(p)) == [p]
    ensures ParseBytes(PairBytes(p) + [0x26] + rest) == [p] + ParseBytes(rest)
  {
    var head := PairBytes(p);
    PairBytesShape(p);
    ParsePairBytes(p);
    FindAfter(head, 0x26, rest);
    assert head[..|head|] == head;
    var bytes := head + [0x26] + rest;
    assert bytes[..|head|] == head && bytes[|head| + 1..] == rest;
  }

  lemma {:induction false} ParseSerializeBytes(pairs: seq<Pair>)
    ensures ParseBytes(SerializeBytes(pairs)) == pairs
  {
    if pairs != [] {
      ParseOneMore(pairs[0], SerializeBytes(pairs[1..]));
      if |pairs| > 1 {
        ParseSerializeBytes(pairs[1..]);
        assert pairs == [pairs[0]] + pairs[1..];
      }
    }
  }

  // A byte of serialized output.
  predicate Printed(b: nat) {
    Escaped(b) || b == 0x3D || b == 0x26
  }

  lemma {:induction false} SerializeIsPrinted(pairs: seq<Pair>)
    ensures forall i :: 0 <= i < |SerializeBytes(pairs)| ==> Printed(SerializeBytes(pairs)[i])
    ensures IsAscii(SerializeBytes(pairs))
    ensures SerializeBytes(pairs) == [] <==> pairs == []
  {
    if pairs != [] {
      PairBytesShape(pairs[0]);
      SerializeIsPrinted(pairs[1..]);
    }
  }

  // params.toString()
  function Serialize(pairs: seq<Pair>): (s: string)
    ensures s == "" <==> pairs == []
    ensures forall i :: 0 <= i < |s| ==> s[i] != '?'
  {
    SerializeIsPrinted(pairs);
    Ascii(SerializeBytes(pairs))
  }

  // Main result: every list of pairs survives printing and parsing.
  lemma ParseSerialize(pairs: seq<Pair>)
    ensures ParseString(Serialize(pairs)) == pairs
  {
    SerializeIsPrinted(pairs);
    EncodeAscii(SerializeBytes(pairs));
    ParseSerializeBytes(pairs);
  }

  // ---------- what is printed and what is read, byte by byte ----------

  // A space is printed as '+', the bytes * - . _ 0-9 A-Z a-z as themselves, and every other
  // byte as '%' and two upper-case hex digits.
  lemma EscapedForm(b: nat)
    requires b < 256
    ensures b == ' ' as nat ==> EscapeByte(b) == ['+' as nat]
    ensures (b as char in "*-._" || '0' <= b as char <= '9' || 'A' <= b as char <= 'Z' || 'a' <= b as char <= 'z') ==> EscapeByte(b) == [b]
    ensures !(b as char in " *-._" || '0' <= b as char <= '9' || 'A' <= b as char <= 'Z' || 'a' <= b as char <= 'z') ==>
              EscapeByte(b) == ['%' as nat, "0123456789ABCDEF"[b / 16] as nat, "0123456789ABCDEF"[b % 16] as nat]
  {
    UpperDigit(b / 16);
    UpperDigit(b % 16);
  }

  lemma UpperDigit(v: nat)
    requires v < 16
    ensures HexDigit(v) == "0123456789ABCDEF"[v] as nat
  {
  }

  lemma {:induction false} EscapeSplits(a: seq<nat>, b: seq<nat>)
    ensures Escape(a + b) == Escape(a) + Escape(b)
  {
    if a == [] {
      assert a + b == b;
    } else {
      assert (a + b)[1..] == a[1..] + b;
      EscapeSplits(a[1..], b);
    }
  }

  // Pairs are printed in order, '=' between name and value and '&' between pairs.
  lemma SerializedForm(p: Pair, rest: seq<Pair>)
    ensures SerializeBytes([p]) == Escape(Encode(p.name)) + ['=' as nat] + Escape(Encode(p.value))
    ensures rest != [] ==> SerializeBytes([p] + rest) == SerializeBytes([p]) + ['&' as nat] + SerializeBytes(rest)
  {
    assert ([p] + rest)[1..] == rest;
  }

  // Read back, '+' is a space, '%' with two hex digits of either case the byte they name, and
  // every other byte, a '%' without them included, itself.
  lemma UnescapedForm(b: nat, rest: seq<nat>)
    ensures b == '+' as nat ==> Unescape([b] + rest) == [' ' as nat] + Unescape(rest)
    ensures b != '+' as nat && b != '%' as nat ==> Unescape([b] + rest) == [b] + Unescape(rest)
    ensures b == '%' as nat && !(|rest| >= 2 && IsHexDigit(rest[0]) && IsHexDigit(rest[1])) ==> Unescape([b] + rest) == [b] + Unescape(rest)
  {
    assert ([b] + rest)[1..] == rest;
  }

  predicate IsHexDigit(b: nat) {
    '0' as nat <= b <= '9' as nat || 'A' as nat <= b <= 'F' as nat || 'a' as nat <= b <= 'f' as nat
  }

  lemma UnescapedHex(high: nat, low: nat, rest: seq<nat>)
    requires high < 16 && low < 16
    ensures Unescape(['%' as nat, "0123456789ABCDEF"[high] as nat, "0123456789ABCDEF"[low] as nat] + rest) == [16 * high + low] + Unescape(rest)
    ensures Unescape(['%' as nat, "0123456789abcdef"[high] as nat, "0123456789abcdef"[low] as nat] + rest) == [16 * high + low] + Unescape(rest)
  {
    HexForms(high);
    HexForms(low);
    UnescapeTriple("0123456789ABCDEF"[high] as nat, "0123456789ABCDEF"[low] as nat, high, low, rest);
    UnescapeTriple("0123456789abcdef"[high] as nat, "0123456789abcdef"[low] as nat, high, low, rest);
  }

  lemma HexForms(v: nat)
    requires v < 16
    ensures IsHex("0123456789ABCDEF"[v] as nat) && HexValue("0123456789ABCDEF"[v] as nat) == v
    ensures IsHex("0123456789abcdef"[v] as nat) && HexValue("0123456789abcdef"[v] as nat) == v
  {
  }

  lemma UnescapeTriple(h: nat, l: nat, high: nat, low: nat, rest: seq<nat>)
    requires IsHex(h) && IsHex(l) && HexValue(h) == high && HexValue(l) == low
    ensures Unescape(['%' as nat, h, l] + rest) == [16 * high + low] + Unescape(rest)
  {
    var bytes := ['%' as nat, h, l] + rest;
    assert |bytes| >= 3 && bytes[0] == 0x25 && bytes[1] == h && bytes[2] == l && bytes[3..] == rest;
    assert Unescape(bytes) == [HexValue(bytes[1]) * 16 + HexValue(bytes[2])] + Unescape(bytes[3..]);
  }

  // What is read is read piece by piece between the '&'s; empty pieces give nothing; a piece
  // is split at its first '=', and has an empty value without one.
  lemma {:induction false} ParseSplits(a: seq<nat>, b: seq<nat>)
    ensures ParseBytes(a + ['&' as nat] + b) == ParseBytes(a) + ParseBytes(b)
  {
    var i := Find(a, 0x26);
    if i == |a| {
      ParseFirst(a, b);
    } else {
      var piece, tail := a[..i], a[i + 1..];
      assert a == piece + [0x26] + tail;
      Regroup(piece, tail, b);
      ParseFirst(piece, tail + [0x26] + b);
      ParseFirst(piece, tail);
      ParseSplits(tail, b);
      RegroupPairs(if piece == [] then [] else [ParsePair(piece)], ParseBytes(tail), ParseBytes(b));
    }
  }

  lemma Regroup(a: seq<nat>, b: seq<nat>, c: seq<nat>)
    ensures a + [0x26] + b + [0x26] + c == a + [0x26] + (b + [0x26] + c)
  {
  }

  lemma RegroupPairs(a: seq<Pair>, b: seq<Pair>, c: seq<Pair>)
    ensures a + (b + c) == (a + b) + c
  {
  }

  lemma ParseFirst(piece: seq<nat>, rest: seq<nat>)
    requires forall i :: 0 <= i < |piece| ==> piece[i] != 0x26
    ensures ParseBytes(piece + [0x26] + rest) == (if piece == [] then [] else [ParsePair(piece)]) + ParseBytes(rest)
    ensures ParseBytes(piece) == if piece == [] then [] else [ParsePair(piece)]
  {
    var all := piece + [0x26] + rest;
    FindAfter(piece, 0x26, rest);
    assert all[..|piece|] == piece && all[|piece| + 1..] == rest && piece[..|piece|] == piece;
  }

  lemma ParsePiece(name: seq<nat>, value: seq<nat>)
    requires '&' as nat !in name && '=' as nat !in name && '&' as nat !in value
    ensures ParseBytes(name + ['=' as nat] + value) == [Pair(Decode(Unescape(name)), Decode(Unescape(value)))]
  {
    var piece := name + [0x3D] + value;
    ParseFirst(piece, []);
    FindAfter(name, 0x3D, value);
    assert piece[..|name|] == name && piece[|name| + 1..] == value;
  }

  lemma ParseBareName(name: seq<nat>)
    requires '&' as nat !in name && '=' as nat !in name
    ensures ParseBytes(name) == if name == [] then [] else [Pair(Decode(Unescape(name)), "")]
  {
    ParseFirst(name, []);
    FindAfter(name, 0x3D, []);
    assert name[..|name|] == name;
  }

  // new URLSearchParams drops one leading '?', and no more.
  lemma ParseDropsOneMark(s: string)
    ensures ParseString("?" + s) == ParseBytes(Encode(s))
    ensures s == "" || s[0] != '?' ==> ParseString(s) == ParseBytes(Encode(s))
  {
    assert ("?" + s)[1..] == s;
  }
}
