// UTF-8 encode, and UTF-8 decode without BOM with replacement, as the WHATWG Encoding
// Standard defines them (section 8.1). A char is a Unicode scalar value, a byte a number below 256.
module Utf8 {

  function EncodeChar(c: char): seq<nat> {
    var v := c as int;
    if v < 0x80 then [v]
    else if v < 0x800 then [0xC0 + v / 64, 0x80 + v % 64]
    else if v < 0x10000 then [0xE0 + v / 4096, 0x80 + v / 64 % 64, 0x80 + v % 64]
    else [0xF0 + v / 262144, 0x80 + v / 4096 % 64, 0x80 + v / 64 % 64, 0x80 + v % 64]
  }

  function Encode(s: string): seq<nat> {
    if s == "" then [] else EncodeChar(s[0]) + Encode(s[1..])
  }

  // How many continuation bytes the lead byte announces; none for a byte that leads nothing.
  function Announced(lead: nat): nat {
    if 0xC2 <= lead <= 0xDF then 1 else if 0xE0 <= lead <= 0xEF then 2 else if 0xF0 <= lead <= 0xF4 then 3 else 0
  }

  // Whether b may be the k-th continuation byte after the lead byte.
  predicate Continues(lead: nat, k: nat, b: nat) {
    if k == 1 && lead == 0xE0 then 0xA0 <= b <= 0xBF
    else if k == 1 && lead == 0xED then 0x80 <= b <= 0x9F
    else if k == 1 && lead == 0xF0 then 0x90 <= b <= 0xBF
    else if k == 1 && lead == 0xF4 then 0x80 <= b <= 0x8F
    else 0x80 <= b <= 0xBF
  }

  // The continuation bytes found, from the k-th on.
  function Found(bytes: seq<nat>, k: nat): (n: nat)
    requires bytes != [] && k >= 1
    ensures k <= |bytes| ==> k - 1 + n < |bytes|
    decreases |bytes| - k
  {
    if k > Announced(bytes[0]) || k >= |bytes| || !Continues(bytes[0], k, bytes[k]) then 0
    else 1 + Found(bytes, k + 1)
  }

  const REPLACEMENT: char := '\U{FFFD}'

  function Scalar(v: int): char {
    if 0 <= v < 0xD800 || 0xE000 <= v < 0x110000 then v as char else REPLACEMENT
  }

  function Above(b: int, base: int): int { b - base }

  function Low(b: int): int { b - 0x80 }

  // A complete sequence gives its character; a broken one gives U+FFFD and decoding goes on
  // at the byte that broke it.
  function Decode(bytes: seq<nat>): string {
    if bytes == [] then ""
    else
      var lead, n := bytes[0], Found(bytes, 1);
      var c :=
        if lead < 0x80 then Scalar(lead)
        else if Announced(lead) == 0 || n < Announced(lead) then REPLACEMENT
        else if n == 1 then Scalar(Above(lead, 0xC0) * 64 + Low(bytes[1]))
        else if n == 2 then Scalar(Above(lead, 0xE0) * 4096 + Low(bytes[1]) * 64 + Low(bytes[2]))
        else Scalar(Above(lead, 0xF0) * 262144 + Low(bytes[1]) * 4096 + Low(bytes[2]) * 64 + Low(bytes[3]));
      [c] + Decode(bytes[1 + n..])
  }

  lemma Split2(v: int)
    ensures v == v / 64 * 64 + v % 64
  {
  }

  lemma Split3(v: int)
    ensures v == v / 4096 * 4096 + v / 64 % 64 * 64 + v % 64
    ensures v / 4096 == v / 64 / 64
  {
  }

  lemma Split4(v: int)
    ensures v == v / 262144 * 262144 + v / 4096 % 64 * 4096 + v / 64 % 64 * 64 + v % 64
  {
    Split3(v);
    assert v / 262144 == v / 4096 / 64;
  }

  // Decoding is the left inverse of encoding, one character at a time.
  lemma DecodeChar(c: char, rest: seq<nat>)
    ensures Decode(EncodeChar(c) + rest) == [c] + Decode(rest)
  {
    var v, e := c as int, EncodeChar(c);
    var bytes := e + rest;
    if v < 0x80 {
      assert Found(bytes, 1) == 0;
    } else if v < 0x800 {
      Split2(v);
      assert Found(bytes, 2) == 0;
    } else if v < 0x10000 {
      Split3(v);
      assert Continues(bytes[0], 1, bytes[1]);
      assert Found(bytes, 3) == 0;
      assert Found(bytes, 2) == 1;
    } else {
      Split4(v);
      assert Continues(bytes[0], 1, bytes[1]);
      assert Found(bytes, 4) == 0;
      assert Found(bytes, 3) == 1;
      assert Found(bytes, 2) == 2;
    }
    assert bytes[|e|..] == rest;
  }

  lemma {:induction false} DecodeEncode(s: string)
    ensures Decode(Encode(s)) == s
  {
    if s != "" {
      DecodeChar(s[0], Encode(s[1..]));
      DecodeEncode(s[1..]);
    }
  }

  lemma {:induction false} EncodeBytes(s: string)
    ensures forall i :: 0 <= i < |Encode(s)| ==> Encode(s)[i] < 256
  {
    if s != "" {
      EncodeBytes(s[1..]);
    }
  }

  // ---------- exactly what is decoded ----------

  lemma SecondOfThree(v: int)
    requires 0x800 <= v < 0xD800 || 0xE000 <= v < 0x10000
    ensures 0xE0 <= 0xE0 + v / 4096 <= 0xEF && Continues(0xE0 + v / 4096, 1, 0x80 + v / 64 % 64)
  {
    Split3(v);
  }

  lemma SecondOfFour(v: int)
    requires 0x10000 <= v < 0x110000
    ensures 0xF0 <= 0xF0 + v / 262144 <= 0xF4 && Continues(0xF0 + v / 262144, 1, 0x80 + v / 4096 % 64)
  {
    Split4(v);
  }

  // Every character's encoding announces and continues itself.
  lemma EncodedContinues(c: char)
    ensures |EncodeChar(c)| == 1 + Announced(EncodeChar(c)[0])
    ensures forall k :: 1 <= k < |EncodeChar(c)| ==> Continues(EncodeChar(c)[0], k, EncodeChar(c)[k])
  {
    var v := c as int;
    if 0x800 <= v < 0x10000 {
      SecondOfThree(v);
    } else if 0x10000 <= v {
      SecondOfFour(v);
    }
  }

  lemma Join2(a: nat, x: nat)
    requires x < 64
    ensures (a * 64 + x) / 64 == a && (a * 64 + x) % 64 == x
  {
  }

  lemma Join3(a: nat, x: nat, y: nat)
    requires x < 64 && y < 64
    ensures var v := a * 4096 + x * 64 + y; v / 4096 == a && v / 64 % 64 == x && v % 64 == y
  {
    Join2(a, x);
    Join2(a * 64 + x, y);
    Split3(a * 4096 + x * 64 + y);
  }

  lemma Join4(a: nat, x: nat, y: nat, z: nat)
    requires x < 64 && y < 64 && z < 64
    ensures var v := a * 262144 + x * 4096 + y * 64 + z;
            v / 262144 == a && v / 4096 % 64 == x && v / 64 % 64 == y && v % 64 == z
  {
    Join2(a, x);
    Join3(a * 64 + x, y, z);
    Split4(a * 262144 + x * 4096 + y * 64 + z);
  }

  // And whatever announces and continues itself is some character's encoding.
  lemma CompleteIsEncoded(bytes: seq<nat>) returns (c: char)
    requires bytes != [] && (bytes[0] < 0x80 || Announced(bytes[0]) >= 1) && |bytes| == 1 + Announced(bytes[0])
    requires forall k :: 1 <= k < |bytes| ==> Continues(bytes[0], k, bytes[k])
    ensures EncodeChar(c) == bytes
  {
    if |bytes| == 1 {
      c := bytes[0] as char;
    } else if |bytes| == 2 {
      c := PairIsEncoded(bytes[0], bytes[1]);
    } else if |bytes| == 3 {
      c := TripleIsEncoded(bytes[0], bytes[1], bytes[2]);
    } else {
      c := QuadIsEncoded(bytes[0], bytes[1], bytes[2], bytes[3]);
    }
  }

  lemma PairIsEncoded(a: nat, b: nat) returns (c: char)
    requires 0xC2 <= a <= 0xDF && Continues(a, 1, b)
    ensures EncodeChar(c) == [a, b]
  {
    Join2(a - 0xC0, b - 0x80);
    c := ((a - 0xC0) * 64 + (b - 0x80)) as char;
  }

  lemma TripleIsEncoded(a: nat, b1: nat, b2: nat) returns (c: char)
    requires 0xE0 <= a <= 0xEF && Continues(a, 1, b1) && Continues(a, 2, b2)
    ensures EncodeChar(c) == [a, b1, b2]
  {
    Join3(a - 0xE0, b1 - 0x80, b2 - 0x80);
    var v := (a - 0xE0) * 4096 + (b1 - 0x80) * 64 + (b2 - 0x80);
    assert 0x800 <= v < 0xD800 || 0xE000 <= v < 0x10000;
    c := v as char;
  }

  lemma QuadIsEncoded(a: nat, b1: nat, b2: nat, b3: nat) returns (c: char)
    requires 0xF0 <= a <= 0xF4 && Continues(a, 1, b1) && Continues(a, 2, b2) && Continues(a, 3, b3)
    ensures EncodeChar(c) == [a, b1, b2, b3]
  {
    Join4(a - 0xF0, b1 - 0x80, b2 - 0x80, b3 - 0x80);
    var v := (a - 0xF0) * 262144 + (b1 - 0x80) * 4096 + (b2 - 0x80) * 64 + (b3 - 0x80);
    assert 0x10000 <= v < 0x110000;
    c := v as char;
  }

  lemma {:induction false} FoundContinue(bytes: seq<nat>, k: nat)
    requires bytes != [] && 1 <= k <= |bytes|
    ensures forall i :: k <= i < k + Found(bytes, k) ==> Continues(bytes[0], i, bytes[i])
    ensures k <= Announced(bytes[0]) + 1 ==> k + Found(bytes, k) <= Announced(bytes[0]) + 1
    decreases |bytes| - k
  {
    if Found(bytes, k) > 0 {
      FoundContinue(bytes, k + 1);
    }
  }

  lemma {:induction false} AllFound(bytes: seq<nat>, k: nat, n: nat)
    requires 1 <= k <= n <= |bytes| && n <= Announced(bytes[0]) + 1
    requires forall i :: k <= i < n ==> Continues(bytes[0], i, bytes[i])
    ensures k + Found(bytes, k) >= n
    decreases n - k
  {
    if k < n {
      AllFound(bytes, k + 1, n);
    }
  }

  // Bytes that some character's encoding starts with.
  ghost predicate StartsCharacter(bytes: seq<nat>) {
    exists c: char :: bytes <= EncodeChar(c)
  }

  // Main result: decoding takes the character whose encoding comes first; where none does, it
  // takes the longest stretch that starts one, at least one byte, for a single U+FFFD.
  lemma DecodeOne(bytes: seq<nat>) returns (c: char, n: nat)
    requires bytes != []
    ensures 1 <= n <= |bytes| && Decode(bytes) == [c] + Decode(bytes[n..])
    ensures bytes[..n] == EncodeChar(c) ||
            (&& c == '\U{FFFD}'
             && (forall d: char :: !(EncodeChar(d) <= bytes))
             && (n == 1 || StartsCharacter(bytes[..n]))
             && (n == |bytes| || !StartsCharacter(bytes[..n + 1])))
  {
    n := 1 + Found(bytes, 1);
    FoundContinue(bytes, 1);
    if bytes[0] < 0x80 || (Announced(bytes[0]) >= 1 && n == 1 + Announced(bytes[0])) {
      c := CompleteIsEncoded(bytes[..n]);
      EncodedFirst(bytes, c, n);
    } else {
      c := REPLACEMENT;
      NothingComplete(bytes, n);
      if n > 1 { StartIsStart(bytes[..n]); }
    }
  }

  lemma EncodedFirst(bytes: seq<nat>, c: char, n: nat)
    requires n <= |bytes| && bytes[..n] == EncodeChar(c)
    ensures Decode(bytes) == [c] + Decode(bytes[n..])
  {
    assert EncodeChar(c) + bytes[n..] == bytes;
    DecodeChar(c, bytes[n..]);
  }

  // Of bytes that start a character, as many are found.
  lemma StartIsFound(bytes: seq<nat>, d: char, m: nat)
    requires 1 <= m <= |bytes| && bytes[..m] <= EncodeChar(d)
    ensures 1 + Found(bytes, 1) >= m
    ensures 1 + Announced(bytes[0]) == |EncodeChar(d)| && (Announced(bytes[0]) == 0 ==> bytes[0] < 0x80)
  {
    var e := EncodeChar(d);
    EncodedContinues(d);
    assert forall i :: 0 <= i < m ==> bytes[i] == bytes[..m][i] == e[i];
    AllFound(bytes, 1, m);
  }

  lemma NothingComplete(bytes: seq<nat>, n: nat)
    requires bytes != [] && n == 1 + Found(bytes, 1) && n <= |bytes|
    requires bytes[0] >= 0x80 && (Announced(bytes[0]) == 0 || n < 1 + Announced(bytes[0]))
    ensures forall d: char :: !(EncodeChar(d) <= bytes)
    ensures n == |bytes| || !StartsCharacter(bytes[..n + 1])
  {
    forall d: char ensures !(EncodeChar(d) <= bytes) {
      if EncodeChar(d) <= bytes { StartIsFound(bytes, d, |EncodeChar(d)|); }
    }
    if n < |bytes| {
      forall d: char ensures !(bytes[..n + 1] <= EncodeChar(d)) {
        if bytes[..n + 1] <= EncodeChar(d) { StartIsFound(bytes, d, n + 1); }
      }
    }
  }

  // Filled up with 0x80, a stretch of at least two bytes becomes some character's encoding.
  lemma StartIsStart(start: seq<nat>)
    requires 2 <= |start| <= Announced(start[0]) + 1
    requires forall k :: 1 <= k < |start| ==> Continues(start[0], k, start[k])
    ensures StartsCharacter(start)
  {
    var full := start + seq(1 + Announced(start[0]) - |start|, _ => 0x80);
    var c := CompleteIsEncoded(full);
    assert start <= EncodeChar(c);
  }

  // ---------- ASCII ----------

  predicate IsAscii(bytes: seq<nat>) {
    forall i :: 0 <= i < |bytes| ==> bytes[i] < 128
  }

  function Ascii(bytes: seq<nat>): (s: string)
    requires IsAscii(bytes)
    ensures |s| == |bytes| && forall i :: 0 <= i < |s| ==> s[i] == bytes[i] as char
  {
    seq(|bytes|, i requires 0 <= i < |bytes| => bytes[i] as char)
  }

  lemma {:induction false} EncodeAscii(bytes: seq<nat>)
    requires IsAscii(bytes)
    ensures Encode(Ascii(bytes)) == bytes
  {
    if bytes != [] {
      assert Ascii(bytes)[1..] == Ascii(bytes[1..]);
      EncodeAscii(bytes[1..]);
    }
  }
}
