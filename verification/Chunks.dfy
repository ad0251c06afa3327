// chunks of internal/adapters/bot/client.go, on UTF-8 bytes (RFC 3629, section 4).
module Chunks {
  import Text

  newtype Byte = b: int | 0 <= b < 256

  const NEWLINE: Byte := 10
  const SOONEST_CUT := 500

  // ---- UTF-8 ----

  predicate Tail(b: Byte) { 0x80 <= b <= 0xBF }

  // The length of the character that starts the string, or 0 if none does.
  function RuneLen(s: seq<Byte>): (n: nat)
    ensures n <= 4 && n <= |s|
  {
    if |s| >= 1 && s[0] <= 0x7F then 1
    else if |s| >= 2 && 0xC2 <= s[0] <= 0xDF && Tail(s[1]) then 2
    else if |s| >= 3 && Tail(s[2])
         && ((s[0] == 0xE0 && 0xA0 <= s[1] <= 0xBF) || (0xE1 <= s[0] <= 0xEC && Tail(s[1]))
             || (s[0] == 0xED && 0x80 <= s[1] <= 0x9F) || (0xEE <= s[0] <= 0xEF && Tail(s[1]))) then 3
    else if |s| >= 4 && Tail(s[2]) && Tail(s[3])
         && ((s[0] == 0xF0 && 0x90 <= s[1] <= 0xBF) || (0xF1 <= s[0] <= 0xF3 && Tail(s[1]))
             || (s[0] == 0xF4 && 0x80 <= s[1] <= 0x8F)) then 4
    else 0
  }

  predicate Valid(s: seq<Byte>) {
    s == [] || (RuneLen(s) > 0 && Valid(s[RuneLen(s)..]))
  }

  // unicode.IsSpace of the character that starts the string.
  predicate SpaceStarts(s: seq<Byte>)
    requires RuneLen(s) > 0
  {
    match RuneLen(s)
    case 1 => 9 <= s[0] <= 13 || s[0] == 32
    case 2 => s[0] == 0xC2 && (s[1] == 0x85 || s[1] == 0xA0)
    case 3 =>
      || (s[0] == 0xE1 && s[1] == 0x9A && s[2] == 0x80)
      || (s[0] == 0xE2 && s[1] == 0x80 && (s[2] <= 0x8A || s[2] == 0xA8 || s[2] == 0xA9 || s[2] == 0xAF))
      || (s[0] == 0xE2 && s[1] == 0x81 && s[2] == 0x9F)
      || (s[0] == 0xE3 && s[1] == 0x80 && s[2] == 0x80)
    case _ => false
  }

  predicate Blank(s: seq<Byte>) {
    s == [] || (RuneLen(s) > 0 && SpaceStarts(s) && Blank(s[RuneLen(s)..]))
  }

  function TrimLeft(s: seq<Byte>): seq<Byte> {
    if s != [] && RuneLen(s) > 0 && SpaceStarts(s) then TrimLeft(s[RuneLen(s)..]) else s
  }

  function TrimRight(s: seq<Byte>): seq<Byte> {
    if s == [] || RuneLen(s) == 0 then s
    else
      var rest := TrimRight(s[RuneLen(s)..]);
      if rest == [] && SpaceStarts(s) then [] else s[..RuneLen(s)] + rest
  }

  // strings.TrimSpace on valid UTF-8.
  function TrimSpace(s: seq<Byte>): seq<Byte> {
    TrimRight(TrimLeft(s))
  }

  // ---- Encoding ----

  // A Unicode scalar value.
  predicate IsScalar(c: int) {
    0 <= c < 0x11_0000 && !(0xD800 <= c <= 0xDFFF)
  }

  // A byte that continues a character with six bits.
  function Continue(bits: int): Byte {
    (0x80 + bits % 64) as Byte
  }

  // Its bytes, by section 3 of RFC 3629.
  function Encode(c: int): seq<Byte>
    requires IsScalar(c)
  {
    var c1, c2, c3 := c / 64, c / 64 / 64, c / 64 / 64 / 64;
    if c < 0x80 then [c as Byte]
    else if c < 0x800 then [(0xC0 + c1) as Byte, Continue(c)]
    else if c < 0x1_0000 then [(0xE0 + c2) as Byte, Continue(c1), Continue(c)]
    else [(0xF0 + c3) as Byte, Continue(c2), Continue(c1), Continue(c)]
  }

  function Bits(high: int, b: Byte): int {
    high * 64 + (b as int - 0x80)
  }

  // The character that starts the string.
  function Decode(s: seq<Byte>): int
    requires RuneLen(s) > 0
  {
    match RuneLen(s)
    case 1 => s[0] as int
    case 2 => Bits(s[0] as int - 0xC0, s[1])
    case 3 => Bits(Bits(s[0] as int - 0xE0, s[1]), s[2])
    case 4 => Bits(Bits(Bits(s[0] as int - 0xF0, s[1]), s[2]), s[3])
  }

  lemma BitsSplit(high: int, b: Byte)
    requires Tail(b)
    ensures Bits(high, b) / 64 == high && Continue(Bits(high, b)) == b
    ensures high * 64 <= Bits(high, b) < (high + 1) * 64
  {
  }

  lemma BitsJoin(c: int)
    ensures Tail(Continue(c)) && Bits(c / 64, Continue(c)) == c
  {
  }

  // Some character starts the string exactly if its encoding does.
  lemma DecodeIsEncoded(s: seq<Byte>)
    requires RuneLen(s) > 0
    ensures IsScalar(Decode(s)) && Encode(Decode(s)) == s[..RuneLen(s)]
  {
    hide Bits, Continue;
    match RuneLen(s)
    case 1 =>
    case 2 =>
      BitsSplit(s[0] as int - 0xC0, s[1]);
    case 3 =>
      BitsSplit(s[0] as int - 0xE0, s[1]);
      BitsSplit(Bits(s[0] as int - 0xE0, s[1]), s[2]);
      BitsInRange(s[0] as int - 0xE0, s[1]);
    case 4 =>
      BitsSplit(s[0] as int - 0xF0, s[1]);
      BitsSplit(Bits(s[0] as int - 0xF0, s[1]), s[2]);
      BitsSplit(Bits(Bits(s[0] as int - 0xF0, s[1]), s[2]), s[3]);
      BitsInRange(s[0] as int - 0xF0, s[1]);
  }

  lemma BitsInRange(high: int, b: Byte)
    ensures Bits(high, b) == high * 64 + (b as int - 0x80)
  {
  }

  lemma EncodedIsOneRune(c: int)
    requires IsScalar(c)
    ensures RuneLen(Encode(c)) == |Encode(c)| > 0 && Decode(Encode(c)) == c
  {
    EncodedLength(c);
    hide RuneLen, Continue, Bits, IsScalar;
    BitsJoin(c);
    BitsJoin(c / 64);
    BitsJoin(c / 64 / 64);
  }

  lemma EncodedLength(c: int)
    requires IsScalar(c)
    ensures RuneLen(Encode(c)) == |Encode(c)| > 0
  {
    hide *;
    if c < 0x800 {
      ShortBytes(c);
    } else if c < 0x1_0000 {
      ThreeBytes(c);
    } else {
      FourBytes(c);
    }
  }

  lemma ShortBytes(c: int)
    requires IsScalar(c) && c < 0x800
    ensures RuneLen(Encode(c)) == |Encode(c)| > 0
  {
    EncodedBytes(c);
    BitsJoin(c);
    var e := Encode(c);
    hide Continue, Bits, IsScalar, Encode;
    assert if c < 0x80 then |e| == 1 && e[0] <= 0x7F else |e| == 2 && 0xC2 <= e[0] <= 0xDF && Tail(e[1]);
  }

  lemma ThreeBytes(c: int)
    requires IsScalar(c) && 0x800 <= c < 0x1_0000
    ensures |Encode(c)| == 3 && RuneLen(Encode(c)) == 3
  {
    EncodedBytes(c);
    BitsJoin(c);
    BitsJoin(c / 64);
    var e := Encode(c);
    hide Continue, Bits, Encode;
    assert |e| == 3 && 0xE0 <= e[0] <= 0xEF && Tail(e[1]) && Tail(e[2]);
    assert (e[0] == 0xE0 ==> 0xA0 <= e[1]) && (e[0] == 0xED ==> e[1] <= 0x9F);
  }

  lemma FourBytes(c: int)
    requires IsScalar(c) && 0x1_0000 <= c
    ensures |Encode(c)| == 4 && RuneLen(Encode(c)) == 4
  {
    EncodedBytes(c);
    BitsJoin(c);
    BitsJoin(c / 64);
    BitsJoin(c / 64 / 64);
    var e := Encode(c);
    hide Continue, Bits, Encode;
    assert |e| == 4 && 0xF0 <= e[0] <= 0xF4 && Tail(e[1]) && Tail(e[2]) && Tail(e[3]);
    assert (e[0] == 0xF0 ==> 0x90 <= e[1]) && (e[0] == 0xF4 ==> e[1] <= 0x8F);
  }

  lemma EncodedIsRune(c: int, t: seq<Byte>)
    requires IsScalar(c)
    ensures RuneLen(Encode(c) + t) == |Encode(c)| > 0 && Decode(Encode(c) + t) == c
  {
    EncodedIsOneRune(c);
    FirstRuneStays(Encode(c), t);
    var e, s := Encode(c), Encode(c) + t;
    assert forall i :: 0 <= i < |e| ==> s[i] == e[i];
    hide Encode, IsScalar, RuneLen, Bits;
  }

  // What the ranges of the second byte come from.
  lemma EncodedBytes(c: int)
    requires IsScalar(c)
    ensures 0x800 <= c < 0x1000 ==> c / 64 / 64 == 0 && Continue(c / 64) >= 0xA0
    ensures 0xD000 <= c < 0xD800 ==> c / 64 / 64 == 13 && Continue(c / 64) <= 0x9F
    ensures 0x1000 <= c < 0x1_0000 ==> 1 <= c / 64 / 64 <= 15 && (c / 64 / 64 == 13 <==> 0xD000 <= c < 0xE000)
    ensures 0x1_0000 <= c < 0x4_0000 ==> c / 64 / 64 / 64 == 0 && Continue(c / 64 / 64) >= 0x90
    ensures 0x10_0000 <= c ==> c / 64 / 64 / 64 == 4 && Continue(c / 64 / 64) <= 0x8F
    ensures 0x4_0000 <= c < 0x10_0000 ==> 1 <= c / 64 / 64 / 64 <= 3
    ensures 0x80 <= c < 0x800 ==> 2 <= c / 64 <= 31
  {
  }

  // It is a space exactly if the character is one.
  lemma SpaceIsSpace(s: seq<Byte>)
    requires RuneLen(s) > 0
    ensures IsScalar(Decode(s))
    ensures SpaceStarts(s) <==> Text.IsSpace(Decode(s) as char)
  {
  }

  function EncodeAll(cs: seq<int>): seq<Byte>
    requires forall c :: c in cs ==> IsScalar(c)
  {
    if cs == [] then [] else Encode(cs[0]) + EncodeAll(cs[1..])
  }

  // The valid strings are exactly the encodings of sequences of scalar values.
  lemma {:induction false} EncodingIsValid(cs: seq<int>)
    requires forall c :: c in cs ==> IsScalar(c)
    ensures Valid(EncodeAll(cs))
  {
    if cs != [] {
      EncodingIsValid(cs[1..]);
      EncodedIsRune(cs[0], EncodeAll(cs[1..]));
      hide Encode, RuneLen;
      assert EncodeAll(cs)[|Encode(cs[0])|..] == EncodeAll(cs[1..]);
    }
  }

  lemma {:induction false} ValidIsEncoding(s: seq<Byte>) returns (cs: seq<int>)
    requires Valid(s)
    ensures (forall c :: c in cs ==> IsScalar(c)) && EncodeAll(cs) == s
    decreases |s|
  {
    if s == [] {
      cs := [];
    } else {
      hide Encode, RuneLen, Decode, IsScalar, EncodeAll;
      var more := ValidIsEncoding(s[RuneLen(s)..]);
      cs := FirstDecoded(s, more);
    }
  }

  lemma FirstDecoded(s: seq<Byte>, more: seq<int>) returns (cs: seq<int>)
    requires RuneLen(s) > 0
    requires (forall c :: c in more ==> IsScalar(c)) && EncodeAll(more) == s[RuneLen(s)..]
    ensures (forall c :: c in cs ==> IsScalar(c)) && EncodeAll(cs) == s
  {
    hide *;
    DecodeIsEncoded(s);
    cs := [Decode(s)] + more;
    FirstEncoded(Decode(s), more);
    assert s[..RuneLen(s)] + s[RuneLen(s)..] == s;
  }

  lemma FirstEncoded(c: int, cs: seq<int>)
    requires IsScalar(c) && forall x :: x in cs ==> IsScalar(x)
    ensures EncodeAll([c] + cs) == Encode(c) + EncodeAll(cs)
  {
    hide Encode, IsScalar;
    assert ([c] + cs)[1..] == cs;
  }

  // ---- Text and its bytes ----

  // Text without a part of a character, in bytes.
  function Encoded(s: string): seq<Byte> {
    if s == "" then [] else Encode(s[0] as int) + Encoded(s[1..])
  }

  lemma CharBytes(c: char)
    requires c != Text.STRAY
    ensures |Encode(c as int)| == Text.ByteLength(c)
  {
  }

  lemma ValidBehindRune(c: int, t: seq<Byte>)
    requires IsScalar(c)
    ensures Valid(Encode(c) + t) <==> Valid(t)
  {
    EncodedIsRune(c, t);
    hide Encode, RuneLen;
    assert (Encode(c) + t)[|Encode(c)|..] == t;
  }

  lemma PartIsNotValid(c: int, t: seq<Byte>, n: nat)
    requires IsScalar(c) && 0 < n < |Encode(c)|
    ensures !Valid((Encode(c) + t)[..n])
  {
    EncodedIsRune(c, t);
    RuneIsLocal(Encode(c) + t, n);
    hide Encode, RuneLen;
  }

  // What the model of text says of bytes: Size is the length in bytes; text that fits is not cut;
  // and a cut is the slice of the bytes exactly if that is valid UTF-8, and holds a part of a
  // character, which the database refuses, if it is not.
  lemma {:induction false} CutIsByteSlice(s: string, max: nat)
    requires Text.STRAY !in s
    ensures Text.Size(s) == |Encoded(s)|
    ensures if |Encoded(s)| <= max then Text.Cut(s, max) == s
            else if Valid(Encoded(s)[..max])
              then Text.STRAY !in Text.Cut(s, max) && Encoded(Text.Cut(s, max)) == Encoded(s)[..max]
              else Text.STRAY in Text.Cut(s, max)
  {
    if s != "" {
      hide Encode, RuneLen, Valid;
      var c := s[0];
      CharBytes(c);
      var n := |Encode(c as int)|;
      if n <= max {
        CutIsByteSlice(s[1..], max - n);
        if |Encoded(s)| > max {
          ValidBehindRune(c as int, Encoded(s[1..])[..max - n]);
          CutBehindRune(s, max, n);
        }
      } else {
        CutIsByteSlice(s[1..], max);
        CutWithinRune(s, max);
      }
    }
  }

  lemma CutBehindRune(s: string, max: nat, n: nat)
    requires s != "" && n == |Encode(s[0] as int)| == Text.ByteLength(s[0]) <= max < |Encoded(s)|
    ensures |Encoded(s[1..])| > max - n
    ensures Encoded(s)[..max] == Encode(s[0] as int) + Encoded(s[1..])[..max - n]
    ensures Text.Cut(s, max)[0] == s[0] && Text.Cut(s, max)[1..] == Text.Cut(s[1..], max - n)
  {
    hide Encode;
  }

  lemma CutWithinRune(s: string, max: nat)
    requires s != "" && max < |Encode(s[0] as int)| == Text.ByteLength(s[0]) && Text.STRAY !in s
    ensures |Encoded(s)| > max && (Valid(Encoded(s)[..max]) <==> max == 0)
    ensures Text.Cut(s, max) == Text.Strays(max)
  {
    if max > 0 {
      PartIsNotValid(s[0] as int, Encoded(s[1..]), max);
    }
    hide Encode;
  }

  // A character is recognized by its own bytes alone.
  lemma RuneIsLocal(s: seq<Byte>, k: nat)
    requires k <= |s|
    ensures RuneLen(s[..k]) > 0 ==> RuneLen(s[..k]) == RuneLen(s) <= k
    ensures 0 < RuneLen(s) <= k ==> RuneLen(s[..k]) == RuneLen(s)
  {
    assert forall i :: 0 <= i < k ==> s[..k][i] == s[i];
  }

  lemma FirstRuneStays(s: seq<Byte>, t: seq<Byte>)
    requires RuneLen(s) > 0
    ensures RuneLen(s + t) == RuneLen(s) && (SpaceStarts(s + t) <==> SpaceStarts(s))
    ensures (s + t)[RuneLen(s)..] == s[RuneLen(s)..] + t
  {
    assert (s + t)[..|s|] == s;
    RuneIsLocal(s + t, |s|);
    assert forall i :: 0 <= i < |s| ==> (s + t)[i] == s[i];
  }

  lemma {:induction false} ValidSuffix(s: seq<Byte>, k: nat)
    requires k <= |s| && Valid(s) && Valid(s[..k])
    ensures Valid(s[k..])
    decreases |s|
  {
    if k > 0 {
      RuneIsLocal(s, k);
      hide RuneLen;
      var n := RuneLen(s);
      assert s[..k][n..] == s[n..][..k - n];
      ValidSuffix(s[n..], k - n);
      assert s[n..][k - n..] == s[k..];
    }
  }

  // Some character ends within the last 3 bytes before any place.
  lemma {:induction false} EndsNearby(s: seq<Byte>, m: nat) returns (k: nat)
    requires Valid(s) && m <= |s|
    ensures k <= m <= k + 3 && Valid(s[..k])
    decreases |s|
  {
    var n := RuneLen(s);
    if m < n || s == [] {
      k := 0;
    } else {
      var j := EndsNearby(s[n..], m - n);
      k := n + j;
      RuneIsLocal(s, k);
      assert s[..k][n..] == s[n..][..j];
    }
  }

  // A newline byte is a character of its own.
  lemma {:induction false} NewlineIsBoundary(s: seq<Byte>, c: nat)
    requires Valid(s) && c < |s| && s[c] == NEWLINE
    ensures Valid(s[..c])
    decreases |s|
  {
    var n := RuneLen(s);
    if c >= n {
      assert s[n..][c - n] == NEWLINE;
      NewlineIsBoundary(s[n..], c - n);
      RuneIsLocal(s, c);
      if c > 0 {
        assert s[..c][n..] == s[n..][..c - n];
      }
    } else {
      assert c == 0;
    }
  }

  lemma {:induction false} BlankPlusBlank(s: seq<Byte>, t: seq<Byte>)
    requires Blank(s) && Blank(t)
    ensures Blank(s + t)
    decreases |s|
  {
    if s == [] {
      assert s + t == t;
    } else {
      hide RuneLen, SpaceStarts;
      BlankPlusBlank(s[RuneLen(s)..], t);
      FirstRuneStays(s, t);
    }
  }

  // The first character of s, put before another string.
  lemma PutFirstRune(s: seq<Byte>, t: seq<Byte>)
    requires RuneLen(s) > 0
    ensures Valid(t) ==> Valid(s[..RuneLen(s)] + t)
    ensures Blank(t) && SpaceStarts(s) ==> Blank(s[..RuneLen(s)] + t)
  {
    var r := s[..RuneLen(s)];
    RuneIsLocal(s, |r|);
    FirstRuneStays(r, t);
    FirstRuneStays(r, s[|r|..]);
    assert r + s[|r|..] == s;
    assert r[|r|..] + t == t;
  }

  lemma Regroup(s: seq<Byte>, n: nat, a: seq<Byte>, b: seq<Byte>)
    requires n <= |s| && s[n..] == a + b
    ensures s == (s[..n] + a) + b
  {
  }

  lemma {:induction false} TrimLeftShape(s: seq<Byte>) returns (ws: seq<Byte>)
    requires Valid(s)
    ensures s == ws + TrimLeft(s) && Blank(ws) && Valid(TrimLeft(s))
    decreases |s|
  {
    ws := [];
    if s != [] && SpaceStarts(s) {
      hide RuneLen, SpaceStarts;
      var more := TrimLeftShape(s[RuneLen(s)..]);
      PutFirstRune(s, more);
      ws := s[..RuneLen(s)] + more;
      Regroup(s, RuneLen(s), more, TrimLeft(s[RuneLen(s)..]));
    }
  }

  lemma {:induction false} TrimRightShape(s: seq<Byte>) returns (ws: seq<Byte>)
    requires Valid(s)
    ensures s == TrimRight(s) + ws && Blank(ws) && Valid(TrimRight(s))
    decreases |s|
  {
    ws := [];
    if s != [] {
      hide RuneLen, SpaceStarts;
      ws := TrimRightShape(s[RuneLen(s)..]);
      var rest := TrimRight(s[RuneLen(s)..]);
      PutFirstRune(s, rest);
      PutFirstRune(s, ws);
      Regroup(s, RuneLen(s), rest, ws);
      if rest == [] && SpaceStarts(s) {
        Regroup(s, RuneLen(s), ws, []);
        ws := s[..RuneLen(s)] + ws;
      }
    }
  }

  // ---- Cutting ----

  // The longest valid prefix of at most max bytes.
  function ValidPrefix(s: seq<Byte>, max: nat): (k: nat)
    requires max <= |s|
    ensures k <= max && Valid(s[..k])
    ensures forall j :: k < j <= max ==> !Valid(s[..j])
  {
    if max == 0 || Valid(s[..max]) then max else ValidPrefix(s, max - 1)
  }

  function LastIndex(s: seq<Byte>, b: Byte): (i: int)
    ensures -1 <= i < |s| && (i >= 0 ==> s[i] == b)
    ensures forall j :: i < j < |s| ==> s[j] != b
  {
    if s == [] then -1 else if s[|s| - 1] == b then |s| - 1 else LastIndex(s[..|s| - 1], b)
  }

  // Where a string longer than max is cut: at its last newline from byte 500 on, or else after as
  // many whole characters as fit.
  function CutAt(s: seq<Byte>, max: nat): (cut: nat)
    requires max <= |s|
  {
    var limit := ValidPrefix(s, max);
    var newline := LastIndex(s[..limit], NEWLINE);
    if newline < SOONEST_CUT then limit else newline
  }

  lemma CutShape(s: seq<Byte>, max: nat)
    requires Valid(s) && max >= SOONEST_CUT + 3 && max <= |s|
    ensures var cut := CutAt(s, max); SOONEST_CUT <= cut <= max && Valid(s[..cut]) && Valid(s[cut..])
  {
    var k := EndsNearby(s, max);
    var limit := ValidPrefix(s, max);
    assert k <= limit;
    var newline := LastIndex(s[..limit], NEWLINE);
    if newline >= SOONEST_CUT {
      NewlineIsBoundary(s[..limit], newline);
      assert s[..limit][..newline] == s[..newline];
    }
    ValidSuffix(s, CutAt(s, max));
  }

  lemma TrimShrinks(s: seq<Byte>)
    requires Valid(s)
    ensures Valid(TrimSpace(s)) && |TrimSpace(s)| <= |s|
  {
    var _ := TrimLeftShape(s);
    var _ := TrimRightShape(TrimLeft(s));
  }

  function ChunksOf(s: seq<Byte>, max: nat): seq<seq<Byte>>
    requires Valid(s) && max >= SOONEST_CUT + 3
    decreases |s|
  {
    if |s| <= max then [s]
    else
      CutShape(s, max);
      var cut := CutAt(s, max);
      TrimShrinks(s[cut..]);
      [s[..cut]] + ChunksOf(TrimSpace(s[cut..]), max)
  }

  // For max below 503 the loop need not make progress; the bot calls it with 3500.
  method Chunks(text: seq<Byte>, max: nat) returns (out: seq<seq<Byte>>)
    requires Valid(text) && max >= SOONEST_CUT + 3
    ensures out == ChunksOf(text, max)
  {
    hide Valid, TrimSpace, ValidPrefix, LastIndex, ChunksOf;
    var s := text;
    out := [];
    while |s| > max
      invariant Valid(s) && ChunksOf(text, max) == out + ChunksOf(s, max)
      decreases |s|
    {
      var cutLimit := FitWholeRunes(s, max);
      var cut := LastIndex(s[..cutLimit], NEWLINE);
      if cut < SOONEST_CUT {
        cut := cutLimit;
      }
      ChunksStep(s, max, cut);
      assert out + ([s[..cut]] + ChunksOf(TrimSpace(s[cut..]), max)) == out + [s[..cut]] + ChunksOf(TrimSpace(s[cut..]), max);
      out := out + [s[..cut]];
      s := TrimSpace(s[cut..]);
    }
    LastChunk(s, max);
    out := out + [s];
  }

  lemma ChunksStep(s: seq<Byte>, max: nat, cut: nat)
    requires Valid(s) && max >= SOONEST_CUT + 3 && |s| > max && cut == CutAt(s, max)
    ensures cut <= |s| && Valid(TrimSpace(s[cut..])) && |TrimSpace(s[cut..])| < |s|
    ensures ChunksOf(s, max) == [s[..cut]] + ChunksOf(TrimSpace(s[cut..]), max)
  {
    hide Valid, TrimSpace, CutAt;
    CutShape(s, max);
    TrimShrinks(s[cut..]);
  }

  lemma LastChunk(s: seq<Byte>, max: nat)
    requires Valid(s) && max >= SOONEST_CUT + 3 && |s| <= max
    ensures ChunksOf(s, max) == [s]
  {
  }

  // Steps back from max until the bytes before are whole characters.
  method FitWholeRunes(s: seq<Byte>, max: nat) returns (cutLimit: nat)
    requires max <= |s|
    ensures cutLimit == ValidPrefix(s, max)
  {
    cutLimit := max;
    while cutLimit > 0 && !Valid(s[..cutLimit])
      invariant cutLimit <= max && ValidPrefix(s, max) == ValidPrefix(s, cutLimit)
    {
      cutLimit := cutLimit - 1;
    }
  }

  // ---- What the chunks are ----

  // At most n/500 + 1 chunks, each valid and of at most max bytes, all but the last of at least 500.
  lemma {:induction false} ChunksAreBounded(s: seq<Byte>, max: nat)
    requires Valid(s) && max >= SOONEST_CUT + 3
    ensures var cs := ChunksOf(s, max);
            && 1 <= |cs| <= |s| / SOONEST_CUT + 1
            && (forall i :: 0 <= i < |cs| ==> Valid(cs[i]) && |cs[i]| <= max)
            && (forall i :: 0 <= i < |cs| - 1 ==> |cs[i]| >= SOONEST_CUT)
    decreases |s|
  {
    if |s| > max {
      CutShape(s, max);
      var cut := CutAt(s, max);
      TrimShrinks(s[cut..]);
      ChunksAreBounded(TrimSpace(s[cut..]), max);
    }
  }

  function Interleave(cs: seq<seq<Byte>>, gaps: seq<seq<Byte>>): seq<Byte>
    requires |gaps| == |cs|
  {
    if cs == [] then [] else cs[0] + gaps[0] + Interleave(cs[1..], gaps[1..])
  }

  lemma {:induction false} GrowLastGap(cs: seq<seq<Byte>>, gaps: seq<seq<Byte>>, g: seq<Byte>)
    requires |gaps| == |cs| > 0
    ensures var n := |cs| - 1;
            Interleave(cs, gaps[n := gaps[n] + g]) == Interleave(cs, gaps) + g
  {
    var n := |cs| - 1;
    if n > 0 {
      GrowLastGap(cs[1..], gaps[1..], g);
      assert gaps[n := gaps[n] + g][1..] == gaps[1..][n - 1 := gaps[1..][n - 1] + g];
    } else {
      assert Interleave(cs[1..], gaps[1..]) == [];
    }
  }

  lemma TrimSplits(s: seq<Byte>) returns (before: seq<Byte>, behind: seq<Byte>)
    requires Valid(s)
    ensures Blank(before) && Blank(behind) && s == before + TrimSpace(s) + behind
  {
    hide Valid, Blank, TrimLeft, TrimRight;
    before := TrimLeftShape(s);
    behind := TrimRightShape(TrimLeft(s));
  }

  ghost predicate AllBlank(gaps: seq<seq<Byte>>) {
    forall i :: 0 <= i < |gaps| ==> Blank(gaps[i])
  }

  // The chunks in order give back the input except whitespace after each of them.
  lemma {:induction false} ChunksReassemble(s: seq<Byte>, max: nat) returns (gaps: seq<seq<Byte>>)
    requires Valid(s) && max >= SOONEST_CUT + 3
    ensures |gaps| == |ChunksOf(s, max)| && Interleave(ChunksOf(s, max), gaps) == s && AllBlank(gaps)
    decreases |s|
  {
    if |s| <= max {
      gaps := [[]];
      OneChunk(s);
    } else {
      hide Valid, Blank, TrimSpace, CutAt, Interleave, AllBlank;
      CutShape(s, max);
      var cut := CutAt(s, max);
      TrimShrinks(s[cut..]);
      ChunksAreBounded(TrimSpace(s[cut..]), max);
      var inner := ChunksReassemble(TrimSpace(s[cut..]), max);
      gaps := AddChunk(s, cut, ChunksOf(TrimSpace(s[cut..]), max), inner);
    }
  }

  lemma AddChunk(s: seq<Byte>, cut: nat, cs: seq<seq<Byte>>, inner: seq<seq<Byte>>) returns (gaps: seq<seq<Byte>>)
    requires cut <= |s| && Valid(s[cut..]) && |cs| == |inner| > 0
    requires Interleave(cs, inner) == TrimSpace(s[cut..]) && AllBlank(inner)
    ensures |gaps| == |cs| + 1 && Interleave([s[..cut]] + cs, gaps) == s && AllBlank(gaps)
  {
    hide Valid, Blank, TrimSpace, Interleave;
    var before, behind := TrimSplits(s[cut..]);
    var n := |cs| - 1;
    GrowLastGap(cs, inner, behind);
    BlankPlusBlank(inner[n], behind);
    JoinChunk(s, cut, before, behind, cs, inner);
    gaps := [before] + inner[n := inner[n] + behind];
  }

  lemma OneChunk(s: seq<Byte>)
    ensures Interleave([s], [[]]) == s && Blank([])
  {
    assert Interleave([s][1..], [[]][1..]) == [];
  }

  lemma JoinChunk(s: seq<Byte>, cut: nat, before: seq<Byte>, behind: seq<Byte>, cs: seq<seq<Byte>>,
                  inner: seq<seq<Byte>>)
    requires cut <= |s| && |cs| == |inner| > 0
    requires s[cut..] == before + Interleave(cs, inner) + behind
    requires var n := |cs| - 1; Interleave(cs, inner[n := inner[n] + behind]) == Interleave(cs, inner) + behind
    ensures var n := |cs| - 1; Interleave([s[..cut]] + cs, [before] + inner[n := inner[n] + behind]) == s
  {
    var n := |cs| - 1;
    var grown := inner[n := inner[n] + behind];
    assert ([s[..cut]] + cs)[1..] == cs && ([before] + grown)[1..] == grown;
    assert s == s[..cut] + s[cut..];
  }

  // ---- Where the chunks are cut ----

  // A string that is too long is cut at its last newline between byte 500 and the longest valid
  // prefix that fits, and behind that prefix if there is none.
  lemma CutIsAtLastNewline(s: seq<Byte>, max: nat, limit: nat)
    requires Valid(s) && max >= SOONEST_CUT + 3 && max <= |s|
    requires limit <= max && Valid(s[..limit]) && forall k :: limit < k <= max ==> !Valid(s[..k])
    ensures var cut := CutAt(s, max);
            && cut <= limit
            && (cut < limit ==> cut >= 500 && s[cut] == 10)
            && forall j :: 500 <= j < limit && s[j] == 10 ==> j <= cut < limit
  {
    var k := ValidPrefix(s, max);
    assert k == limit;
    var newline := LastIndex(s[..limit], NEWLINE);
    assert forall j :: 0 <= j < limit ==> s[..limit][j] == s[j];
  }

  // No whitespace starts the string.
  predicate StartsInk(s: seq<Byte>) {
    s == [] || (RuneLen(s) > 0 && !SpaceStarts(s))
  }

  // No whitespace ends it.
  ghost predicate EndsInk(s: seq<Byte>) {
    forall k :: 0 <= k <= |s| && Valid(s[..k]) && Blank(s[k..]) ==> k == |s|
  }

  lemma {:induction false} TrimLeftStarts(s: seq<Byte>)
    requires Valid(s)
    ensures StartsInk(TrimLeft(s))
    decreases |s|
  {
    if s != [] && SpaceStarts(s) {
      TrimLeftStarts(s[RuneLen(s)..]);
    }
  }

  lemma {:induction false} TrimRightEnds(s: seq<Byte>)
    requires Valid(s)
    ensures EndsInk(TrimRight(s)) && (StartsInk(s) ==> StartsInk(TrimRight(s)))
    decreases |s|
  {
    if s != [] {
      var n := RuneLen(s);
      TrimRightEnds(s[n..]);
      var rest := TrimRight(s[n..]);
      if !(rest == [] && SpaceStarts(s)) {
        var r := s[..n] + rest;
        RuneIsLocal(s, n);
        FirstRuneStays(s[..n], rest);
        FirstRuneStays(s[..n], s[n..]);
        assert s[..n] + s[n..] == s && r[n..] == rest && TrimRight(s) == r;
        hide TrimRight, SpaceStarts;
        forall k | 0 <= k <= |r| && Valid(r[..k]) && Blank(r[k..]) ensures k == |r| {
          InkBefore(r, n, rest, k);
        }
      }
    }
  }

  lemma InkBefore(r: seq<Byte>, n: nat, rest: seq<Byte>, k: nat)
    requires RuneLen(r) == n > 0 && r[n..] == rest && EndsInk(rest) && !(rest == [] && SpaceStarts(r))
    requires k <= |r| && Valid(r[..k]) && Blank(r[k..])
    ensures k == |r|
  {
    RuneIsLocal(r, k);
    hide RuneLen, SpaceStarts;
    assert r[0..] == r && rest[..0] == [] && rest[0..] == rest;
    if k > 0 {
      assert r[..k][n..] == rest[..k - n] && rest[k - n..] == r[k..];
    }
  }

  // No chunk but the first starts with whitespace, and if there are several the last does not end
  // with any.
  // The first chunk starts as the string does.
  lemma FirstChunkStarts(s: seq<Byte>, max: nat)
    requires Valid(s) && max >= SOONEST_CUT + 3 && StartsInk(s)
    ensures ChunksOf(s, max) != [] && StartsInk(ChunksOf(s, max)[0])
  {
    if |s| > max {
      CutShape(s, max);
      RuneIsLocal(s, CutAt(s, max));
      hide TrimSpace, CutAt, Valid;
    }
  }

  lemma TrimmedIsInk(s: seq<Byte>)
    requires Valid(s)
    ensures Valid(TrimSpace(s)) && |TrimSpace(s)| <= |s| && StartsInk(TrimSpace(s)) && EndsInk(TrimSpace(s))
  {
    TrimShrinks(s);
    TrimLeftStarts(s);
    var _ := TrimLeftShape(s);
    TrimRightEnds(TrimLeft(s));
    hide TrimLeft, TrimRight, StartsInk, EndsInk, Valid;
  }

  // No chunk but the first starts with whitespace.
  lemma {:induction false} ChunksStartInk(s: seq<Byte>, max: nat)
    requires Valid(s) && max >= SOONEST_CUT + 3
    ensures forall i :: 0 < i < |ChunksOf(s, max)| ==> StartsInk(ChunksOf(s, max)[i])
    decreases |s|
  {
    if |s| > max {
      var cut := CutAt(s, max);
      ChunksStep(s, max, cut);
      CutShape(s, max);
      var t := TrimSpace(s[cut..]);
      TrimmedIsInk(s[cut..]);
      ChunksStartInk(t, max);
      FirstChunkStarts(t, max);
    } else {
      LastChunk(s, max);
    }
  }

  // If there are several chunks, the last one does not end with whitespace.
  lemma {:induction false} LastChunkEndsInk(s: seq<Byte>, max: nat)
    requires Valid(s) && max >= SOONEST_CUT + 3
    ensures var cs := ChunksOf(s, max); cs != [] && (|cs| > 1 || EndsInk(s) ==> EndsInk(cs[|cs| - 1]))
    decreases |s|
  {
    if |s| > max {
      var cut := CutAt(s, max);
      ChunksStep(s, max, cut);
      CutShape(s, max);
      TrimmedIsInk(s[cut..]);
      LastChunkEndsInk(TrimSpace(s[cut..]), max);
    } else {
      LastChunk(s, max);
    }
  }

  // No chunk but the first starts with whitespace, and if there are several the last does not end
  // with any.
  lemma ChunksAreTrimmed(s: seq<Byte>, max: nat)
    requires Valid(s) && max >= SOONEST_CUT + 3
    ensures var cs := ChunksOf(s, max);
            && cs != [] && (forall i :: 0 < i < |cs| ==> StartsInk(cs[i]))
            && (|cs| > 1 ==> EndsInk(cs[|cs| - 1]))
  {
    hide *;
    ChunksStartInk(s, max);
    LastChunkEndsInk(s, max);
  }
}
