// Slug generation by rejection sampling over chunked random bytes (slug-generator.service.ts).
module SlugGenerator {
  import opened Wrappers

  const SLUG_LENGTH: nat := 6
  const REJECTION_BUFFER: nat := 2

  // ---------- the alphabet ----------

  // ALPHABET[i]: 0-9 a-z A-H J-N P-Z _ , without O and I.
  function Character(i: nat): char
    requires i < 61
  {
    if i < 10 then '0' + i as char
    else if i < 36 then 'a' + (i - 10) as char
    else if i < 44 then 'A' + (i - 36) as char
    else if i < 49 then 'J' + (i - 44) as char
    else if i < 60 then 'P' + (i - 49) as char
    else '_'
  }

  // A character's index in ALPHABET.
  function IndexOf(c: char): nat {
    if '0' <= c <= '9' then (c - '0') as nat
    else if 'a' <= c <= 'z' then 10 + (c - 'a') as nat
    else if 'A' <= c <= 'H' then 36 + (c - 'A') as nat
    else if 'J' <= c <= 'N' then 44 + (c - 'J') as nat
    else if 'P' <= c <= 'Z' then 49 + (c - 'P') as nat
    else 60
  }

  lemma CharactersAreTheAlphabet(i: nat, alphabet: string)
    requires i < 61
    requires alphabet == "0123456789" + "abcdefghijklmnopqrstuvwxyz" + "ABCDEFGH" + "JKLMN" + "PQRSTUVWXYZ" + "_"
    ensures |alphabet| == 61 && Character(i) == alphabet[i]
  {
    if i < 10 { Stretch("0123456789", i); }
    else if i < 36 { Stretch("abcdefghijklmnopqrstuvwxyz", i - 10); }
    else if i < 44 { Stretch("ABCDEFGH", i - 36); }
    else if i < 49 { Stretch("JKLMN", i - 44); }
    else if i < 60 { Stretch("PQRSTUVWXYZ", i - 49); }
  }

  lemma Stretch(s: string, i: nat)
    requires s in ["0123456789", "abcdefghijklmnopqrstuvwxyz", "ABCDEFGH", "JKLMN", "PQRSTUVWXYZ"] && i < |s|
    ensures s[i] == s[0] + i as char
  {
  }

  // The alphabet repeats no character: below, a slug is the word of its characters' indices,
  // and different words are different slugs.
  lemma CharactersAreDistinct(i: nat, j: nat)
    requires i < 61 && j < 61
    ensures Character(i) == Character(j) <==> i == j
  {
    assert IndexOf(Character(i)) == i && IndexOf(Character(j)) == j;
  }

  predicate IsSlug(w: seq<nat>) {
    |w| == SLUG_LENGTH && forall k :: 0 <= k < |w| ==> w[k] < 61
  }

  function Spelling(w: seq<nat>): (slug: string)
    requires IsSlug(w)
    ensures |slug| == SLUG_LENGTH
  {
    seq(|w|, k requires 0 <= k < |w| => Character(w[k]))
  }

  // So counting words is counting slugs.
  lemma WordsAreSlugs(v: seq<nat>, w: seq<nat>)
    requires IsSlug(v) && IsSlug(w)
    ensures Spelling(v) == Spelling(w) <==> v == w
  {
    if Spelling(v) == Spelling(w) {
      forall k | 0 <= k < SLUG_LENGTH ensures v[k] == w[k] {
        assert Spelling(v)[k] == Spelling(w)[k];
        CharactersAreDistinct(v[k], w[k]);
      }
    }
  }

  // ---------- generation ----------

  // Maps one random byte to an index; bytes from MAX_BYTE on, the largest multiple of the
  // alphabet's 61 characters up to 256, are rejected.
  function ByteToIndex(b: nat): Option<nat> {
    if b >= 61 * (256 / 61) then None else Some(b % 61)
  }

  function Letters(b: nat): seq<nat> {
    if ByteToIndex(b).Some? then [ByteToIndex(b).value] else []
  }

  // The reference: the indices of the accepted bytes, in order.
  function Accepted(bytes: seq<nat>): seq<nat> {
    if bytes == [] then [] else Accepted(bytes[..|bytes| - 1]) + Letters(bytes[|bytes| - 1])
  }

  function Truncate(s: seq<nat>): seq<nat> {
    if |s| <= SLUG_LENGTH then s else s[..SLUG_LENGTH]
  }

  lemma Associate(a: seq<nat>, b: seq<nat>, c: seq<nat>)
    ensures a + (b + c) == (a + b) + c
  {
  }

  lemma TruncateTwice(s: seq<nat>, more: seq<nat>)
    ensures Truncate(Truncate(s) + more) == Truncate(s + more)
    ensures |Truncate(s)| == SLUG_LENGTH ==> Truncate(s + more) == Truncate(s)
  {
  }

  lemma AcceptOne(bytes: seq<nat>, b: nat)
    ensures Accepted(bytes + [b]) == Accepted(bytes) + Letters(b)
  {
    assert (bytes + [b])[..|bytes|] == bytes;
  }

  lemma {:induction false} AcceptedSplits(a: seq<nat>, b: seq<nat>)
    ensures Accepted(a + b) == Accepted(a) + Accepted(b)
  {
    if b == [] {
      assert a + b == a;
    } else {
      assert (a + b)[..|a + b| - 1] == a + b[..|b| - 1];
      AcceptedSplits(a, b[..|b| - 1]);
    }
  }

  lemma {:induction false} AcceptedInRange(bytes: seq<nat>)
    ensures |Accepted(bytes)| <= |bytes|
    ensures forall k :: 0 <= k < |Accepted(bytes)| ==> Accepted(bytes)[k] < 61
  {
    if bytes != [] {
      AcceptedInRange(bytes[..|bytes| - 1]);
    }
  }

  method TakeChars(buffer: seq<nat>, acc: seq<nat>) returns (next: seq<nat>)
    requires |acc| <= SLUG_LENGTH
    ensures next == Truncate(acc + Accepted(buffer))
  {
    next := acc;
    var i := 0;
    while i < |buffer| && |next| < SLUG_LENGTH
      invariant i <= |buffer| && |next| <= SLUG_LENGTH
      invariant next == acc + Accepted(buffer[..i])
    {
      AcceptOne(buffer[..i], buffer[i]);
      assert buffer[..i + 1] == buffer[..i] + [buffer[i]];
      Associate(acc, Accepted(buffer[..i]), Letters(buffer[i]));
      var index := ByteToIndex(buffer[i]);
      if index.Some? {
        next := next + [index.value];
      }
      i := i + 1;
    }
    RestIsDropped(buffer, acc, i);
  }

  // Where takeChars stops, the rest of the buffer no longer matters.
  lemma RestIsDropped(buffer: seq<nat>, acc: seq<nat>, i: nat)
    requires i <= |buffer| && |acc + Accepted(buffer[..i])| <= SLUG_LENGTH
    requires i == |buffer| || |acc + Accepted(buffer[..i])| == SLUG_LENGTH
    ensures Truncate(acc + Accepted(buffer)) == acc + Accepted(buffer[..i])
  {
    AcceptedSplits(buffer[..i], buffer[i..]);
    assert buffer == buffer[..i] + buffer[i..];
    Associate(acc, Accepted(buffer[..i]), Accepted(buffer[i..]));
  }

  // The next n bytes of the random source, from position `from` on.
  function Draw(source: nat -> nat, from: nat, n: nat): (bytes: seq<nat>)
    ensures |bytes| == n
  {
    seq(n, i requires 0 <= i < n => source(from + i))
  }

  lemma AcceptedGrows(source: nat -> nat, n: nat, m: nat)
    requires n <= m
    ensures Accepted(Draw(source, 0, m)) == Accepted(Draw(source, 0, n)) + Accepted(Draw(source, n, m - n))
  {
    DrawOn(source, n, m - n);
    AcceptedSplits(Draw(source, 0, n), Draw(source, n, m - n));
  }

  // The word the first n bytes of the stream yield.
  function FirstSix(source: nat -> nat, n: nat): (word: seq<nat>)
    ensures |word| <= SLUG_LENGTH
  {
    Truncate(Accepted(Draw(source, 0, n)))
  }

  // Main result 1: on every stream with six acceptable bytes among its first n, buildSlug
  // ends and returns the first six accepted bytes' indices, whatever the chunk sizes and
  // the discarded tail of the last chunk.
  method BuildSlug(source: nat -> nat, ghost n: nat) returns (slug: seq<nat>, ghost drawn: seq<nat>)
    requires |Accepted(Draw(source, 0, n))| >= 6
    ensures slug == Accepted(Draw(source, 0, n))[..6]
    ensures |slug| == 6 && forall k :: 0 <= k < 6 ==> slug[k] < 61
    ensures drawn == Draw(source, 0, |drawn|) && Generate(drawn, []) == Some(slug)
  {
    slug := [];
    var next := 0;
    StandsAtStart(source);
    while |slug| < SLUG_LENGTH
      invariant slug == FirstSix(source, next)
      invariant StandsAt(source, next, slug)
      decreases n - next, SLUG_LENGTH - |slug|
    {
      StillAhead(source, n, next);
      var chunk := SLUG_LENGTH - |slug| + REJECTION_BUFFER;
      ChunkExtends(source, next, chunk);
      ChunkGoesOn(source, next, chunk, slug);
      slug := TakeChars(Draw(source, next, chunk), slug);
      next := next + chunk;
    }
    FirstSixAgree(source, n, next);
    AcceptedInRange(Draw(source, 0, n));
    drawn := Draw(source, 0, next);
    StandsAtEnd(source, next, slug);
  }

  // After the first `next` bytes generation stands at this slug.
  ghost predicate StandsAt(source: nat -> nat, next: nat, slug: seq<nat>)
    requires |slug| <= SLUG_LENGTH
  {
    forall rest {:trigger Draw(source, 0, next) + rest} :: Generate(Draw(source, 0, next) + rest, []) == Generate(rest, slug)
  }

  lemma StandsAtStart(source: nat -> nat)
    ensures StandsAt(source, 0, [])
  {
    forall rest ensures Generate(Draw(source, 0, 0) + rest, []) == Generate(rest, []) {
      assert Draw(source, 0, 0) + rest == rest;
    }
  }

  lemma StandsAtEnd(source: nat -> nat, next: nat, slug: seq<nat>)
    requires |slug| == SLUG_LENGTH && StandsAt(source, next, slug)
    ensures Generate(Draw(source, 0, next), []) == Some(slug)
  {
    assert Draw(source, 0, next) + [] == Draw(source, 0, next);
  }

  lemma ChunkGoesOn(source: nat -> nat, next: nat, chunk: nat, slug: seq<nat>)
    requires |slug| < SLUG_LENGTH && chunk == SLUG_LENGTH - |slug| + REJECTION_BUFFER && StandsAt(source, next, slug)
    ensures StandsAt(source, next + chunk, Truncate(slug + Accepted(Draw(source, next, chunk))))
  {
    var taken := Draw(source, next, chunk);
    forall rest ensures Generate(Draw(source, 0, next + chunk) + rest, []) == Generate(rest, Truncate(slug + Accepted(taken))) {
      DrawOn(source, next, chunk);
      Associate(Draw(source, 0, next), taken, rest);
      TakeChunk(taken, rest, slug);
    }
  }

  lemma DrawOn(source: nat -> nat, next: nat, chunk: nat)
    ensures Draw(source, 0, next + chunk) == Draw(source, 0, next) + Draw(source, next, chunk)
  {
  }

  lemma TakeChunk(taken: seq<nat>, rest: seq<nat>, slug: seq<nat>)
    requires |slug| < SLUG_LENGTH && |taken| == SLUG_LENGTH - |slug| + REJECTION_BUFFER
    ensures Generate(taken + rest, slug) == Generate(rest, Truncate(slug + Accepted(taken)))
  {
    assert (taken + rest)[..|taken|] == taken && (taken + rest)[|taken|..] == rest;
  }

  lemma ChunkExtends(source: nat -> nat, next: nat, chunk: nat)
    ensures Truncate(FirstSix(source, next) + Accepted(Draw(source, next, chunk))) == FirstSix(source, next + chunk)
  {
    AcceptedGrows(source, next, next + chunk);
    TruncateTwice(Accepted(Draw(source, 0, next)), Accepted(Draw(source, next, chunk)));
  }

  // A slug that is not full has not come as far as n.
  lemma StillAhead(source: nat -> nat, n: nat, next: nat)
    requires |Accepted(Draw(source, 0, n))| >= SLUG_LENGTH && |FirstSix(source, next)| < SLUG_LENGTH
    ensures next < n
  {
    if next >= n {
      AcceptedGrows(source, n, next);
    }
  }

  // Two stretches of the stream with six accepted bytes each have the same first six.
  lemma FirstSixAgree(source: nat -> nat, n: nat, m: nat)
    requires |Accepted(Draw(source, 0, n))| >= SLUG_LENGTH && |FirstSix(source, m)| >= SLUG_LENGTH
    ensures FirstSix(source, m) == Accepted(Draw(source, 0, n))[..SLUG_LENGTH]
  {
    if m <= n {
      AcceptedGrows(source, m, n);
      TruncateTwice(Accepted(Draw(source, 0, m)), Accepted(Draw(source, m, n - m)));
    } else {
      AcceptedGrows(source, n, m);
      TruncateTwice(Accepted(Draw(source, 0, n)), Accepted(Draw(source, n, m - n)));
    }
  }

  // The accepted bytes are those below 244, mod 61, in their order.
  lemma AcceptedForm(bytes: seq<nat>, b: nat)
    ensures Accepted([]) == []
    ensures Accepted(bytes + [b]) == Accepted(bytes) + if b < 244 then [b % 61] else []
  {
    AcceptOne(bytes, b);
  }

  // ---------- uniformity ----------

  // Each index has exactly four accepted bytes.
  lemma FourBytesPerIndex(i: nat)
    requires i < 61
    ensures (set b | 0 <= b < 256 && ByteToIndex(b) == Some(i)) == {i, i + 61, i + 122, i + 183}
    ensures |{i, i + 61, i + 122, i + 183}| == 4
  {
  }

  // buildSlug's loop on a finite supply of bytes, which may run out.
  function Generate(bytes: seq<nat>, slug: seq<nat>): Option<seq<nat>>
    requires |slug| <= SLUG_LENGTH
    decreases |bytes|
  {
    var need := SLUG_LENGTH - |slug| + REJECTION_BUFFER;
    if |slug| == SLUG_LENGTH then Some(slug)
    else if |bytes| < need then None
    else Generate(bytes[need..], Truncate(slug + Accepted(bytes[..need])))
  }

  // A chunk is two bytes longer than the rest of the slug, and what it yields beyond the slug
  // is discarded.
  lemma ChunksHaveTwoToSpare(bytes: seq<nat>, slug: seq<nat>, chunk: nat)
    requires |slug| <= 6 && chunk == 8 - |slug|
    ensures |slug| == 6 ==> Generate(bytes, slug) == Some(slug)
    ensures |slug| < 6 && |bytes| < chunk ==> Generate(bytes, slug) == None
    ensures |slug| < 6 && |bytes| >= chunk ==>
              var longer := slug + Accepted(bytes[..chunk]);
              Generate(bytes, slug) == Generate(bytes[chunk..], if |longer| > 6 then longer[..6] else longer)
  {
  }

  // Replaces an accepted byte by the one of the same quarter whose index is moved by to - from.
  function Shift(b: nat, from: nat, to: nat): (r: nat)
    requires b < 244 && from < 61 && to < 61
    ensures r < 244 && r % 61 == (b % 61 + 61 + to - from) % 61
  {
    61 * (b / 61) + (b % 61 + 61 + to - from) % 61
  }

  lemma ShiftBack(b: nat, from: nat, to: nat)
    requires b < 244 && from < 61 && to < 61
    ensures Shift(Shift(b, from, to), to, from) == b
  {
  }

  // The byte at hand, k bytes having been accepted before it.
  function RecodeByte(b: nat, k: nat, v: seq<nat>, w: seq<nat>): nat
    requires IsSlug(v) && IsSlug(w)
  {
    if b < 244 && k < SLUG_LENGTH then Shift(b, v[k], w[k]) else b
  }

  // Turns a byte string that spells v into one that spells w.
  function Recode(bytes: seq<nat>, v: seq<nat>, w: seq<nat>): (r: seq<nat>)
    requires IsSlug(v) && IsSlug(w)
    ensures |r| == |bytes|
  {
    if bytes == [] then []
    else
      var init := bytes[..|bytes| - 1];
      Recode(init, v, w) + [RecodeByte(bytes[|bytes| - 1], |Accepted(init)|, v, w)]
  }

  // Same length, the same bytes rejected, and no more out of range.
  predicate SamePattern(a: seq<nat>, b: seq<nat>) {
    |a| == |b| && forall i :: 0 <= i < |a| ==> (a[i] < 244 <==> b[i] < 244) && (a[i] < 256 <==> b[i] < 256)
  }

  lemma {:induction false} PatternCounts(a: seq<nat>, b: seq<nat>)
    requires SamePattern(a, b)
    ensures |Accepted(a)| == |Accepted(b)|
  {
    if a != [] {
      PatternCounts(a[..|a| - 1], b[..|b| - 1]);
    }
  }

  lemma RecodeByteInRange(b: nat, k: nat, v: seq<nat>, w: seq<nat>)
    requires IsSlug(v) && IsSlug(w)
    ensures (RecodeByte(b, k, v, w) < 244 <==> b < 244) && (RecodeByte(b, k, v, w) < 256 <==> b < 256)
  {
  }

  lemma {:induction false} RecodeKeepsPattern(bytes: seq<nat>, v: seq<nat>, w: seq<nat>)
    requires IsSlug(v) && IsSlug(w)
    ensures SamePattern(bytes, Recode(bytes, v, w))
    ensures |Accepted(bytes)| == |Accepted(Recode(bytes, v, w))|
  {
    if bytes != [] {
      var init, last := bytes[..|bytes| - 1], bytes[|bytes| - 1];
      assert bytes == init + [last];
      RecodeKeepsPattern(init, v, w);
      RecodeOne(init, last, v, w);
      RecodeByteInRange(last, |Accepted(init)|, v, w);
    }
    PatternCounts(bytes, Recode(bytes, v, w));
  }

  lemma RecodeOne(bytes: seq<nat>, b: nat, v: seq<nat>, w: seq<nat>)
    requires IsSlug(v) && IsSlug(w)
    ensures Recode(bytes + [b], v, w) == Recode(bytes, v, w) + [RecodeByte(b, |Accepted(bytes)|, v, w)]
  {
    assert (bytes + [b])[..|bytes|] == bytes;
  }

  lemma RecodeByteBack(b: nat, k: nat, v: seq<nat>, w: seq<nat>)
    requires IsSlug(v) && IsSlug(w)
    ensures RecodeByte(RecodeByte(b, k, v, w), k, w, v) == b
  {
    if b < 244 && k < SLUG_LENGTH {
      ShiftBack(b, v[k], w[k]);
    }
  }

  lemma {:induction false} RecodeBack(bytes: seq<nat>, v: seq<nat>, w: seq<nat>)
    requires IsSlug(v) && IsSlug(w)
    ensures Recode(Recode(bytes, v, w), w, v) == bytes
  {
    if bytes != [] {
      var init, last := bytes[..|bytes| - 1], bytes[|bytes| - 1];
      assert bytes == init + [last];
      RecodeBack(init, v, w);
      RecodeKeepsPattern(init, v, w);
      RecodeOne(init, last, v, w);
      RecodeOne(Recode(init, v, w), RecodeByte(last, |Accepted(init)|, v, w), w, v);
      RecodeByteBack(last, |Accepted(init)|, v, w);
    }
  }

  predicate Spells(word: seq<nat>, w: seq<nat>) {
    forall k :: 0 <= k < |word| && k < |w| ==> word[k] == w[k]
  }

  // One more byte of a string that spells v becomes one more byte of a string that spells w.
  lemma RecodeByteRespells(word: seq<nat>, word': seq<nat>, b: nat, v: seq<nat>, w: seq<nat>)
    requires IsSlug(v) && IsSlug(w) && |word| == |word'|
    requires Spells(word + Letters(b), v) && Spells(word', w)
    ensures Spells(word' + Letters(RecodeByte(b, |word|, v, w)), w)
  {
    var k := |word|;
    if b < 244 && k < SLUG_LENGTH {
      assert (word + Letters(b))[k] == v[k];
      ShiftedIndex(b, v[k], w[k]);
    }
  }

  lemma ShiftedIndex(b: nat, from: nat, to: nat)
    requires b < 244 && b % 61 == from && to < 61
    ensures Letters(Shift(b, from, to)) == [to]
  {
  }

  lemma {:induction false} RecodeRespells(bytes: seq<nat>, v: seq<nat>, w: seq<nat>)
    requires IsSlug(v) && IsSlug(w) && Spells(Accepted(bytes), v)
    ensures Spells(Accepted(Recode(bytes, v, w)), w)
  {
    if bytes != [] {
      var init, last := bytes[..|bytes| - 1], bytes[|bytes| - 1];
      var word, r := Accepted(init), Recode(init, v, w);
      assert bytes == init + [last];
      AcceptOne(init, last);
      SpellsPrefix(word, Letters(last), v);
      RecodeRespells(init, v, w);
      RecodeKeepsPattern(init, v, w);
      RecodeOne(init, last, v, w);
      AcceptOne(r, RecodeByte(last, |word|, v, w));
      RecodeByteRespells(word, Accepted(r), last, v, w);
    }
  }

  lemma SpellsPrefix(word: seq<nat>, more: seq<nat>, w: seq<nat>)
    requires Spells(word + more, w)
    ensures Spells(word, w)
  {
  }

  lemma {:induction false} GeneratesFirstSix(bytes: seq<nat>, slug: seq<nat>)
    requires |slug| <= SLUG_LENGTH && Generate(bytes, slug).Some?
    ensures Generate(bytes, slug).value == Truncate(slug + Accepted(bytes))
    ensures |Generate(bytes, slug).value| == SLUG_LENGTH
    decreases |bytes|
  {
    if |slug| < SLUG_LENGTH {
      var n := SLUG_LENGTH - |slug| + REJECTION_BUFFER;
      var chunk, rest := bytes[..n], bytes[n..];
      assert bytes == chunk + rest;
      AcceptedSplits(chunk, rest);
      Associate(slug, Accepted(chunk), Accepted(rest));
      TruncateTwice(slug + Accepted(chunk), Accepted(rest));
      GeneratesFirstSix(rest, Truncate(slug + Accepted(chunk)));
    }
  }

  lemma PatternSplits(a: seq<nat>, b: seq<nat>, n: nat)
    requires SamePattern(a, b) && n <= |a|
    ensures SamePattern(a[..n], b[..n]) && SamePattern(a[n..], b[n..])
  {
  }

  lemma TruncateLength(s: seq<nat>, t: seq<nat>)
    requires |s| == |t|
    ensures |Truncate(s)| == |Truncate(t)| <= SLUG_LENGTH
  {
  }

  lemma {:induction false} PatternDecidesCompletion(a: seq<nat>, b: seq<nat>, slugA: seq<nat>, slugB: seq<nat>)
    requires SamePattern(a, b) && |slugA| == |slugB| <= SLUG_LENGTH
    ensures Generate(a, slugA).Some? == Generate(b, slugB).Some?
    decreases |a|
  {
    var n := SLUG_LENGTH - |slugA| + REJECTION_BUFFER;
    if |slugA| < SLUG_LENGTH && |a| >= n {
      PatternSplits(a, b, n);
      PatternCounts(a[..n], b[..n]);
      TruncateLength(slugA + Accepted(a[..n]), slugB + Accepted(b[..n]));
      PatternDecidesCompletion(a[n..], b[n..], Truncate(slugA + Accepted(a[..n])), Truncate(slugB + Accepted(b[..n])));
    }
  }

  ghost function ByteStrings(n: nat): set<seq<nat>> {
    if n == 0 then {[]} else set s, b | s in ByteStrings(n - 1) && 0 <= b < 256 :: s + [b]
  }

  lemma {:induction false} AllByteStrings(n: nat, s: seq<nat>)
    ensures s in ByteStrings(n) <==> |s| == n && forall i :: 0 <= i < n ==> s[i] < 256
  {
    if n > 0 {
      if |s| == n {
        AllByteStrings(n - 1, s[..n - 1]);
        assert s == s[..n - 1] + [s[n - 1]];
      }
      if s in ByteStrings(n) {
        var init, b :| init in ByteStrings(n - 1) && 0 <= b < 256 && s == init + [b];
        AllByteStrings(n - 1, init);
      }
    }
  }

  // The byte strings of length n from which generation completes with w.
  ghost function Producing(n: nat, w: seq<nat>): set<seq<nat>> {
    set s | s in ByteStrings(n) && Generate(s, []) == Some(w)
  }

  lemma RecodeProduces(n: nat, s: seq<nat>, v: seq<nat>, w: seq<nat>)
    requires IsSlug(v) && IsSlug(w) && s in Producing(n, v)
    ensures Recode(s, v, w) in Producing(n, w)
  {
    var r := Recode(s, v, w);
    RecodeKeepsPattern(s, v, w);
    AllByteStrings(n, s);
    AllByteStrings(n, r);
    GeneratesFirstSix(s, []);
    PatternDecidesCompletion(s, r, [], []);
    GeneratesFirstSix(r, []);
    assert [] + Accepted(s) == Accepted(s) && [] + Accepted(r) == Accepted(r);
    SpelledOut(Accepted(s), v);
    RecodeRespells(s, v, w);
    SpelledOut(Accepted(r), w);
  }

  lemma SpelledOut(word: seq<nat>, w: seq<nat>)
    requires |Truncate(word)| == |w| == SLUG_LENGTH
    ensures Truncate(word) == w <==> Spells(word, w)
  {
  }

  lemma {:induction false} InjectionBounds<A, B>(a: set<A>, b: set<B>, f: A -> B)
    requires forall x :: x in a ==> f(x) in b
    requires forall x, y :: x in a && y in a && f(x) == f(y) ==> x == y
    ensures |a| <= |b|
  {
    if a != {} {
      var x :| x in a;
      InjectionBounds(a - {x}, b - {f(x)}, f);
    }
  }

  lemma NoFewer(n: nat, v: seq<nat>, w: seq<nat>)
    requires IsSlug(v) && IsSlug(w)
    ensures |Producing(n, v)| <= |Producing(n, w)|
  {
    var f := (s: seq<nat>) => Recode(s, v, w);
    forall s | s in Producing(n, v) ensures f(s) in Producing(n, w) {
      RecodeProduces(n, s, v, w);
    }
    forall s, t | s in Producing(n, v) && t in Producing(n, v) && f(s) == f(t) ensures s == t {
      RecodeBack(s, v, w);
      RecodeBack(t, v, w);
    }
    InjectionBounds(Producing(n, v), Producing(n, w), f);
  }

  // Main result 2: every slug comes from equally many byte strings of every length.
  lemma SlugsAreUniform(n: nat, v: seq<nat>, w: seq<nat>)
    requires |v| == |w| == 6 && forall k :: 0 <= k < 6 ==> v[k] < 61 && w[k] < 61
    ensures |Producing(n, v)| == |Producing(n, w)|
    ensures forall s :: s in Producing(n, v) <==>
              |s| == n && (forall i :: 0 <= i < n ==> s[i] < 256) && Generate(s, []) == Some(v)
  {
    forall s ensures s in ByteStrings(n) <==> |s| == n && forall i :: 0 <= i < n ==> s[i] < 256 {
      AllByteStrings(n, s);
    }
    NoFewer(n, v, w);
    NoFewer(n, w, v);
  }
}
