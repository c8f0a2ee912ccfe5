/** Bytes, strict UTF-8 (section 4 of RFC 3629) and the shell's reassembly buffer. */
module Utf8 {
  import opened Basics

  type byte = b: int | 0 <= b < 256

  function EncodeChar(c: char): (b: seq<byte>)
    ensures 1 <= |b| <= 4
  {
    var v := c as int;
    if v < 0x80 then
      [v]
    else if v < 0x800 then
      [0xC0 + v / 64, 0x80 + v % 64]
    else if v < 0x1_0000 then
      [0xE0 + v / 64 / 64, 0x80 + v / 64 % 64, 0x80 + v % 64]
    else
      [0xF0 + v / 64 / 64 / 64, 0x80 + v / 64 / 64 % 64, 0x80 + v / 64 % 64, 0x80 + v % 64]
  }

  function Encode(s: string): seq<byte> {
    if s == "" then [] else EncodeChar(s[0]) + Encode(s[1..])
  }

  predicate IsContinuation(b: byte) {
    0x80 <= b < 0xC0
  }

  /** The payload of a byte whose marker bits are `marker`. */
  function Bits(b: byte, marker: int): int {
    b - marker
  }

  /** The character at the front of `b` and its length in bytes, if `b` starts with one. */
  function DecodeChar(b: seq<byte>): Option<(char, nat)> {
    if b == [] then
      None
    else if b[0] < 0x80 then
      Some((b[0] as char, 1))
    else if 0xC2 <= b[0] < 0xE0 && |b| >= 2 && IsContinuation(b[1]) then
      Some(((Bits(b[0], 0xC0) * 64 + Bits(b[1], 0x80)) as char, 2))
    else if 0xE0 <= b[0] < 0xF0 && |b| >= 3 && IsContinuation(b[1]) && IsContinuation(b[2]) then
      var v := Bits(b[0], 0xE0) * 4096 + Bits(b[1], 0x80) * 64 + Bits(b[2], 0x80);
      if v < 0x800 || 0xD800 <= v < 0xE000 then None else Some((v as char, 3))
    else if 0xF0 <= b[0] < 0xF5 && |b| >= 4
            && IsContinuation(b[1]) && IsContinuation(b[2]) && IsContinuation(b[3]) then
      var v := Bits(b[0], 0xF0) * 262144 + Bits(b[1], 0x80) * 4096
               + Bits(b[2], 0x80) * 64 + Bits(b[3], 0x80);
      if v < 0x1_0000 || 0x11_0000 <= v then None else Some((v as char, 4))
    else
      None
  }

  lemma DecodeCharBound(b: seq<byte>)
    ensures DecodeChar(b).Some? ==> 1 <= DecodeChar(b).value.1 <= |b|
  {
  }

  function Decode(b: seq<byte>): (s: Option<string>)
    decreases |b|
  {
    if b == [] then Some("")
    else
      DecodeCharBound(b);
      match DecodeChar(b)
      case None => None
      case Some((c, n)) =>
        match Decode(b[n..])
        case None => None
        case Some(rest) => Some([c] + rest)
  }

  lemma DecodeEncodeChar(c: char, rest: seq<byte>)
    ensures DecodeChar(EncodeChar(c) + rest) == Some((c, |EncodeChar(c)|))
  {
    var v, e := c as int, EncodeChar(c);
    var b := e + rest;
    assert forall i :: 0 <= i < |e| ==> b[i] == e[i];
    var v1 := v / 64;
    var v2 := v1 / 64;
    if 0x1_0000 <= v {
      assert Bits(e[0], 0xF0) * 64 + Bits(e[1], 0x80) == v2;
    } else if 0x800 <= v {
      assert Bits(e[0], 0xE0) * 64 + Bits(e[1], 0x80) == v1;
    }
  }

  lemma Digits64(q: nat, r: nat)
    requires r < 64
    ensures (q * 64 + r) / 64 == q && (q * 64 + r) % 64 == r
  {
  }

  lemma EncodeDecodeChar(b: seq<byte>)
    requires DecodeChar(b).Some?
    ensures DecodeChar(b).value.1 <= |b|
    ensures b[..DecodeChar(b).value.1] == EncodeChar(DecodeChar(b).value.0)
  {
    var (c, n) := DecodeChar(b).value;
    if n == 2 {
      Digits64(Bits(b[0], 0xC0), Bits(b[1], 0x80));
    } else if n == 3 {
      var v1 := Bits(b[0], 0xE0) * 64 + Bits(b[1], 0x80);
      Digits64(Bits(b[0], 0xE0), Bits(b[1], 0x80));
      Digits64(v1, Bits(b[2], 0x80));
      assert c as int == v1 * 64 + Bits(b[2], 0x80);
    } else if n == 4 {
      var v2 := Bits(b[0], 0xF0) * 64 + Bits(b[1], 0x80);
      var v1 := v2 * 64 + Bits(b[2], 0x80);
      Digits64(Bits(b[0], 0xF0), Bits(b[1], 0x80));
      Digits64(v2, Bits(b[2], 0x80));
      Digits64(v1, Bits(b[3], 0x80));
      assert c as int == v1 * 64 + Bits(b[3], 0x80);
    }
  }

  /** The decoder accepts exactly the encodings, and inverts the encoder. */
  lemma {:induction false} DecodeIffEncode(b: seq<byte>, s: string)
    ensures Decode(b) == Some(s) <==> b == Encode(s)
    decreases |b| + |s|
  {
    if s != "" {
      DecodeEncodeChar(s[0], Encode(s[1..]));
    }
    DecodeCharBound(b);
    if b != [] && s != "" && DecodeChar(b).Some? {
      var (c, n) := DecodeChar(b).value;
      EncodeDecodeChar(b);
      assert b == EncodeChar(c) + b[n..];
      DecodeIffEncode(b[n..], s[1..]);
      assert s == [s[0]] + s[1..];
      if b == Encode(s) {
        assert b[n..] == Encode(s[1..]);
      }
    }
  }

  lemma {:induction false} EncodeConcat(s: string, t: string)
    ensures Encode(s + t) == Encode(s) + Encode(t)
  {
    hide EncodeChar;
    if s == "" {
      assert s + t == t;
    } else {
      EncodeConcat(s[1..], t);
      assert (s + t)[1..] == s[1..] + t;
    }
  }

  /** Unique decoding from the front: an encoded prefix is an encoding of a prefix. */
  lemma {:induction false} EncodedPrefix(t: string, p: seq<byte>, s: string)
    requires Encode(t) + p == Encode(s)
    ensures t <= s && p == Encode(s[|t|..])
  {
    if t == "" {
    } else {
      DecodeEncodeChar(t[0], Encode(t[1..]) + p);
      assert EncodeChar(t[0]) + (Encode(t[1..]) + p) == Encode(t) + p;
      assert s != "";
      DecodeEncodeChar(s[0], Encode(s[1..]));
      var n := |EncodeChar(t[0])|;
      assert Encode(s)[n..] == Encode(s[1..]);
      assert (Encode(t) + p)[n..] == Encode(t[1..]) + p;
      EncodedPrefix(t[1..], p, s[1..]);
      assert s[|t|..] == s[1..][|t[1..]|..];
    }
  }

  // ---------------------------------------------------------------------------
  // The reassembly buffer of the shell's write()

  const MAX_HELD := 8

  datatype Absorbed = Absorbed(held: seq<byte>, text: string)

  /** One write: decode everything held so far, or keep holding, or give up. */
  function Absorb(held: seq<byte>, data: seq<byte>): Absorbed {
    match Decode(held + data)
    case Some(text) => Absorbed([], text)
    case None => if |held + data| > MAX_HELD then Absorbed([], "") else Absorbed(held + data, "")
  }

  predicate Drops(held: seq<byte>, data: seq<byte>) {
    Decode(held + data).None? && |held + data| > MAX_HELD
  }

  /** All writes of a session, in order. */
  function AbsorbAll(chunks: seq<seq<byte>>): Absorbed {
    if chunks == [] then Absorbed([], "")
    else
      var before := AbsorbAll(chunks[..|chunks| - 1]);
      var now := Absorb(before.held, chunks[|chunks| - 1]);
      Absorbed(now.held, before.text + now.text)
  }

  predicate DropsAt(chunks: seq<seq<byte>>, k: nat)
    requires k < |chunks|
  {
    Drops(AbsorbAll(chunks[..k]).held, chunks[k])
  }

  predicate NeverDrops(chunks: seq<seq<byte>>) {
    forall k: nat :: k < |chunks| ==> !DropsAt(chunks, k)
  }

  lemma NeverDropsPrefix(chunks: seq<seq<byte>>)
    requires chunks != []
    ensures NeverDrops(chunks) <==>
            NeverDrops(chunks[..|chunks| - 1]) && !DropsAt(chunks, |chunks| - 1)
  {
    var front := chunks[..|chunks| - 1];
    forall k: nat | k < |front| ensures DropsAt(front, k) == DropsAt(chunks, k) {
      assert front[..k] == chunks[..k];
    }
  }

  /** One write keeps every byte unless it drops, and then it loses some. */
  lemma AbsorbAccounts(held: seq<byte>, data: seq<byte>)
    ensures var a := Absorb(held, data);
            if Drops(held, data) then |Encode(a.text)| + |a.held| < |held| + |data|
            else Encode(a.text) + a.held == held + data
  {
    if Decode(held + data).Some? {
      DecodeIffEncode(held + data, Decode(held + data).value);
    }
  }

  /** Decoded text plus held bytes account for every byte received exactly when
      no write gave up on an undecodable buffer of more than eight bytes. */
  lemma {:induction false} AccountsForEveryByte(chunks: seq<seq<byte>>)
    ensures var a := AbsorbAll(chunks);
            if NeverDrops(chunks) then Encode(a.text) + a.held == Concat(chunks)
            else |Encode(a.text)| + |a.held| < |Concat(chunks)|
  {
    if chunks != [] {
      var front, last := chunks[..|chunks| - 1], chunks[|chunks| - 1];
      var before := AbsorbAll(front);
      AccountsForEveryByte(front);
      NeverDropsPrefix(chunks);
      AbsorbAccounts(before.held, last);
      Account(before, Absorb(before.held, last), Concat(front), last);
    }
  }

  lemma Account(before: Absorbed, now: Absorbed, received: seq<byte>, data: seq<byte>)
    ensures Encode(before.text) + before.held == received
            && Encode(now.text) + now.held == before.held + data
            ==> Encode(before.text + now.text) + now.held == received + data
    ensures |Encode(before.text + now.text)| == |Encode(before.text)| + |Encode(now.text)|
  {
    hide Encode;
    EncodeConcat(before.text, now.text);
    if Encode(before.text) + before.held == received
       && Encode(now.text) + now.held == before.held + data {
      Associative(Encode(before.text), Encode(now.text), now.held);
      Associative(Encode(before.text), before.held, data);
    }
  }

  /** For a valid stream, whatever has been decoded is a prefix of the text sent
      and the held bytes start on a character boundary of it. */
  lemma HeldStartsOnBoundary(chunks: seq<seq<byte>>, rest: seq<byte>, s: string)
    requires Concat(chunks) + rest == Encode(s)
    requires NeverDrops(chunks)
    ensures var a := AbsorbAll(chunks);
            a.text <= s && a.held + rest == Encode(s[|a.text|..])
  {
    hide Encode, AbsorbAll, Concat;
    var a := AbsorbAll(chunks);
    AccountsForEveryByte(chunks);
    Associative(Encode(a.text), a.held, rest);
    EncodedPrefix(a.text, a.held + rest, s);
  }

  /** Once the whole stream has arrived and nothing was dropped, all of it was decoded. */
  lemma {:induction false} WholeStreamDecoded(chunks: seq<seq<byte>>, s: string)
    requires Concat(chunks) == Encode(s)
    requires NeverDrops(chunks)
    requires chunks != [] && chunks[|chunks| - 1] != []
    ensures AbsorbAll(chunks) == Absorbed([], s)
  {
    var front, last := chunks[..|chunks| - 1], chunks[|chunks| - 1];
    NeverDropsPrefix(chunks);
    HeldStartsOnBoundary(front, last, s);
    var before := AbsorbAll(front);
    DecodeIffEncode(before.held + last, s[|before.text|..]);
    assert before.text + s[|before.text|..] == s;
  }

  function Bytewise(b: seq<byte>): (chunks: seq<seq<byte>>)
    ensures |chunks| == |b|
  {
    seq(|b|, i requires 0 <= i < |b| => [b[i]])
  }

  lemma {:induction false} ConcatBytewise(b: seq<byte>)
    ensures Concat(Bytewise(b)) == b
  {
    if b != [] {
      ConcatBytewise(b[..|b| - 1]);
      assert Bytewise(b)[..|b| - 1] == Bytewise(b[..|b| - 1]);
    }
  }

  /** What a byte-at-a-time reader of `s` may be holding after decoding `text`. */
  predicate PartOfNextChar(a: Absorbed, s: string) {
    && |a.held| <= 3
    && (a.held != [] ==> |a.text| < |s| && |a.held| < |EncodeChar(s[|a.text|])|)
  }

  /** Delivered byte by byte, at any point of a valid stream the buffer holds a
      proper part of the next character, so it never reaches the limit. */
  lemma {:induction false} BytewiseNeverDrops(b: seq<byte>, rest: seq<byte>, s: string)
    requires b + rest == Encode(s)
    ensures NeverDrops(Bytewise(b)) && PartOfNextChar(AbsorbAll(Bytewise(b)), s)
  {
    if b != [] {
      hide Encode, EncodeChar, Absorb, Concat;
      var front, last := b[..|b| - 1], b[|b| - 1];
      assert front + ([last] + rest) == b + rest;
      BytewiseNeverDrops(front, [last] + rest, s);
      var chunks := Bytewise(b);
      assert chunks[..|b| - 1] == Bytewise(front) && chunks[|b| - 1] == [last];
      ConcatBytewise(front);
      HeldStartsOnBoundary(Bytewise(front), [last] + rest, s);
      NeverDropsPrefix(chunks);
      OneMoreByte(AbsorbAll(Bytewise(front)), last, rest, s);
    }
  }

  /** So a valid stream delivered byte by byte arrives whole. */
  lemma BytewiseDecodesAll(s: string)
    ensures AbsorbAll(Bytewise(Encode(s))) == Absorbed([], s)
  {
    var a := AbsorbAll(Bytewise(Encode(s)));
    assert Encode(s) + [] == Encode(s);
    BytewiseNeverDrops(Encode(s), [], s);
    ConcatBytewise(Encode(s));
    HeldStartsOnBoundary(Bytewise(Encode(s)), [], s);
    var rest := s[|a.text|..];
    assert a.held == Encode(rest);
  }

  lemma OneMoreByte(before: Absorbed, b: byte, rest: seq<byte>, s: string)
    requires before.text <= s && before.held + ([b] + rest) == Encode(s[|before.text|..])
    requires PartOfNextChar(before, s)
    ensures !Drops(before.held, [b])
    ensures var now := Absorb(before.held, [b]);
            PartOfNextChar(Absorbed(now.held, before.text + now.text), s)
  {
    var s' := s[|before.text|..];
    assert before.held + ([b] + rest) == (before.held + [b]) + rest;
    CharCompletes(before.held + [b], rest, s');
    assert s'[0] == s[|before.text|];
  }

  /** The front of a stream, no longer than its first character, decodes when it
      is that whole character. */
  lemma CharCompletes(p: seq<byte>, rest: seq<byte>, s: string)
    requires p != [] && p + rest == Encode(s)
    ensures s != ""
    ensures |p| == |EncodeChar(s[0])| ==> Decode(p).Some?
  {
    assert |p + rest| > 0;
    if |p| == |EncodeChar(s[0])| {
      assert p == (p + rest)[..|p|] == EncodeChar(s[0]);
      assert Encode([s[0]]) == EncodeChar(s[0]) + Encode([s[0]][1..]);
      DecodeIffEncode(p, [s[0]]);
    }
  }

  /** No encoding ends in a lead byte. */
  lemma {:induction false} EndsWhole(s: string)
    requires s != ""
    ensures Encode(s)[|Encode(s)| - 1] < 0xC0
  {
    if s[1..] != "" {
      EndsWhole(s[1..]);
    }
  }

  /** A letter and `n` two-byte characters, cut in the middle of the last one. */
  function Misaligned(n: nat): (b: seq<byte>)
    ensures |b| == 2 * n + 2 && b[2 * n + 1] == 0xC3
  {
    if n == 0 then [0x61, 0xC3] else Misaligned(n - 1) + [0xA9, 0xC3]
  }

  function MisalignedChunks(n: nat): (chunks: seq<seq<byte>>)
    ensures |chunks| == n + 1
  {
    if n == 0 then [[0x61, 0xC3]] else MisalignedChunks(n - 1) + [[0xA9, 0xC3]]
  }

  lemma AbsorbOneMore(front: seq<seq<byte>>, last: seq<byte>)
    ensures var before := AbsorbAll(front);
            var now := Absorb(before.held, last);
            AbsorbAll(front + [last]) == Absorbed(now.held, before.text + now.text)
    ensures DropsAt(front + [last], |front|) == Drops(AbsorbAll(front).held, last)
  {
    assert (front + [last])[..|front|] == front;
  }

  lemma HoldOrDrop(front: seq<seq<byte>>, data: seq<byte>, whole: seq<byte>)
    requires AbsorbAll(front).text == "" && AbsorbAll(front).held + data == whole
    requires Decode(whole).None?
    ensures |whole| <= MAX_HELD ==> AbsorbAll(front + [data]) == Absorbed(whole, "")
    ensures |whole| > MAX_HELD ==>
              AbsorbAll(front + [data]) == Absorbed([], "") && DropsAt(front + [data], |front|)
  {
    AbsorbOneMore(front, data);
  }

  lemma {:induction false} MisalignedHeld(n: nat)
    requires n <= 4
    ensures Concat(MisalignedChunks(n)) == Misaligned(n)
    ensures n <= 3 ==> AbsorbAll(MisalignedChunks(n)) == Absorbed(Misaligned(n), "")
    ensures n == 4 ==> AbsorbAll(MisalignedChunks(n)) == Absorbed([], "")
    ensures n == 4 ==> DropsAt(MisalignedChunks(n), n)
  {
    hide Decode, Absorb, Drops;
    MisalignedUndecodable(n);
    var front := if n == 0 then [] else MisalignedChunks(n - 1);
    var data := if n == 0 then [0x61, 0xC3] else [0xA9, 0xC3];
    if n > 0 {
      MisalignedHeld(n - 1);
    }
    HoldOrDrop(front, data, Misaligned(n));
    assert MisalignedChunks(n) == front + [data];
    assert MisalignedChunks(n)[..n] == front;
  }

  lemma MisalignedUndecodable(n: nat)
    ensures Decode(Misaligned(n)).None?
  {
    if Decode(Misaligned(n)).Some? {
      var s := Decode(Misaligned(n)).value;
      DecodeIffEncode(Misaligned(n), s);
      EndsWhole(s);
    }
  }

  /** Deliveries of two bytes are not safe: one letter in front of five two-byte
      characters never aligns, and the fifth write throws all ten bytes away. */
  lemma TwoByteChunksCanDrop()
    ensures var chunks := MisalignedChunks(4);
            && Concat(chunks) + [0xA9] == Encode("a" + Accents(5))
            && !NeverDrops(chunks)
            && AbsorbAll(chunks) == Absorbed([], "")
  {
    MisalignedHeld(4);
    MisalignedEncodes(4);
  }

  /** `n` two-byte characters. */
  function Accents(n: nat): string {
    if n == 0 then "" else Accents(n - 1) + "\U{E9}"
  }

  lemma {:induction false} MisalignedEncodes(n: nat)
    ensures Misaligned(n) + [0xA9] == Encode("a" + Accents(n + 1))
  {
    OneCharEncodes('a');
    OneCharEncodes('\U{E9}');
    hide Encode, EncodeChar;
    var front := "a" + Accents(n);
    EncodeConcat(front, "\U{E9}");
    assert "a" + Accents(n + 1) == front + "\U{E9}";
    if n == 0 {
      assert front == "a";
      assert Misaligned(n) + [0xA9] == [0x61] + [0xC3, 0xA9];
    } else {
      MisalignedEncodes(n - 1);
      assert Misaligned(n) + [0xA9] == (Misaligned(n - 1) + [0xA9]) + [0xC3, 0xA9];
    }
  }

  lemma OneCharEncodes(c: char)
    ensures Encode([c]) == EncodeChar(c)
    ensures c == 'a' ==> EncodeChar(c) == [0x61]
    ensures c == '\U{E9}' ==> EncodeChar(c) == [0xC3, 0xA9]
  {
    assert [c][1..] == "";
    assert EncodeChar(c) + Encode("") == EncodeChar(c);
  }
}
