// The parts of Go's strings package that the normalisers are built from, on strings of Unicode
// scalar values. A byte that a cut leaves of a longer character is written as the noncharacter
// U+10FFFF, which no text that comes in is taken to contain.
module Text {
  import opened Options

  const STRAY: char := '\U{10FFFF}'

  // unicode.IsSpace
  predicate IsSpace(c: char) {
    || '\t' <= c <= '\r' || c == ' ' || c == '\U{0085}' || c == '\U{00A0}'
    || c == '\U{1680}' || '\U{2000}' <= c <= '\U{200A}' || c == '\U{2028}' || c == '\U{2029}'
    || c == '\U{202F}' || c == '\U{205F}' || c == '\U{3000}'
  }

  predicate Blank(s: string) {
    forall i :: 0 <= i < |s| ==> IsSpace(s[i])
  }

  // A maximal run of non-space characters, as strings.Fields returns it.
  predicate IsWord(w: string) {
    w != "" && forall i :: 0 <= i < |w| ==> !IsSpace(w[i])
  }

  function TrimLeft(s: string): string {
    if s != "" && IsSpace(s[0]) then TrimLeft(s[1..]) else s
  }

  function TrimRight(s: string): string {
    if s != "" && IsSpace(s[|s| - 1]) then TrimRight(s[..|s| - 1]) else s
  }

  // strings.TrimSpace
  function TrimSpace(s: string): string {
    TrimRight(TrimLeft(s))
  }

  function WordLength(s: string): (n: nat)
    ensures n <= |s|
    ensures forall i :: 0 <= i < n ==> !IsSpace(s[i])
    ensures n < |s| ==> IsSpace(s[n])
  {
    if s == "" || IsSpace(s[0]) then 0 else 1 + WordLength(s[1..])
  }

  // strings.Fields
  function Fields(s: string): seq<string>
    decreases |s|
  {
    if s == "" then []
    else if IsSpace(s[0]) then Fields(s[1..])
    else
      var n := WordLength(s);
      [s[..n]] + Fields(s[n..])
  }

  // strings.Join with a single space
  function Join(ws: seq<string>): string {
    if |ws| == 0 then ""
    else if |ws| == 1 then ws[0]
    else ws[0] + " " + Join(ws[1..])
  }

  function NormalizeSpace(s: string): string {
    Join(Fields(TrimSpace(s)))
  }

  function MapChars(f: char -> char, s: string): (r: string)
    ensures |r| == |s| && forall i :: 0 <= i < |s| ==> r[i] == f(s[i])
  {
    seq(|s|, i requires 0 <= i < |s| => f(s[i]))
  }

  // unicode.ToLower on ASCII, Latin-1 and basic Cyrillic letters; other characters stay, and
  // strings.ToLower writes the replacement character for a stray byte.
  function LowerChar(c: char): char {
    if c == STRAY then '\U{FFFD}'
    else if 'A' <= c <= 'Z' || ('\U{00C0}' <= c <= '\U{00DE}' && c != '\U{00D7}') || '\U{0410}' <= c <= '\U{042F}'
    then (c as int + 32) as char
    else if '\U{0400}' <= c <= '\U{040F}' then (c as int + 80) as char
    else c
  }

  function ToLower(s: string): string {
    MapChars(LowerChar, s)
  }

  // A capital and its small letter.
  predicate CaseVariants(capital: char, small: char) {
    || ('A' <= capital <= 'Z' && small as int - 'a' as int == capital as int - 'A' as int)
    || ('\U{00C0}' <= capital <= '\U{00DE}' && capital != '\U{00D7}' && small as int - 0xE0 == capital as int - 0xC0)
    || ('\U{0410}' <= capital <= '\U{042F}' && small as int - 0x430 == capital as int - 0x410)
    || ('\U{0400}' <= capital <= '\U{040F}' && small as int - 0x450 == capital as int - 0x400)
  }

  // One letter in either case, or one character; a stray byte counts as the replacement character.
  predicate SameLetter(c: char, d: char) {
    c == d || CaseVariants(c, d) || CaseVariants(d, c) || {c, d} == {STRAY, '\U{FFFD}'}
  }

  lemma LowerJoinsCases(c: char, d: char)
    ensures LowerChar(c) == LowerChar(d) <==> SameLetter(c, d)
  {
    assert {c, d} == {STRAY, '\U{FFFD}'} <==> (c == STRAY && d == '\U{FFFD}') || (d == STRAY && c == '\U{FFFD}');
  }

  function FirstNonBlank(vals: seq<string>): string {
    if vals == [] then ""
    else if TrimSpace(vals[0]) != "" then vals[0]
    else FirstNonBlank(vals[1..])
  }

  ghost predicate Words(ws: seq<string>) {
    forall i :: 0 <= i < |ws| ==> IsWord(ws[i])
  }

  lemma {:induction false} FieldsAreWords(s: string)
    ensures Words(Fields(s))
    ensures Fields(s) == [] <==> Blank(s)
    decreases |s|
  {
    if s != "" {
      if IsSpace(s[0]) {
        FieldsAreWords(s[1..]);
        assert forall i :: 0 < i < |s| ==> s[i] == s[1..][i - 1];
      } else {
        FieldsAreWords(s[WordLength(s)..]);
        assert !Blank(s);
      }
    }
  }

  lemma {:induction false} TrimLeftShape(s: string)
    ensures TrimLeft(s) == "" <==> Blank(s)
    ensures TrimLeft(s) != "" ==> !IsSpace(TrimLeft(s)[0])
    ensures |TrimLeft(s)| <= |s| && TrimLeft(s) == s[|s| - |TrimLeft(s)|..]
  {
    if s != "" && IsSpace(s[0]) {
      TrimLeftShape(s[1..]);
      assert forall i :: 0 < i < |s| ==> s[i] == s[1..][i - 1];
    }
  }

  lemma {:induction false} TrimRightShape(s: string)
    ensures TrimRight(s) == "" <==> Blank(s)
    ensures TrimRight(s) != "" ==> !IsSpace(TrimRight(s)[|TrimRight(s)| - 1])
    ensures |TrimRight(s)| <= |s| && TrimRight(s) == s[..|TrimRight(s)|]
  {
    if s != "" && IsSpace(s[|s| - 1]) {
      TrimRightShape(s[..|s| - 1]);
    }
  }

  lemma TrimSpaceShape(s: string)
    ensures TrimSpace(s) == "" <==> Blank(s)
    ensures TrimSpace(s) != "" ==> !IsSpace(TrimSpace(s)[0]) && !IsSpace(TrimSpace(s)[|TrimSpace(s)| - 1])
    ensures TrimSpace(TrimSpace(s)) == TrimSpace(s)
  {
    var l := TrimLeft(s);
    TrimLeftShape(s);
    TrimRightShape(l);
  }

  lemma WordPrefix(w: string, t: string)
    requires IsWord(w)
    requires t == "" || IsSpace(t[0])
    ensures Fields(w + t) == [w] + Fields(t)
  {
    var s := w + t;
    assert s[0] == w[0];
    var n := WordLength(s);
    assert forall i :: 0 <= i < |w| ==> s[i] == w[i];
    assert t != "" ==> s[|w|] == t[0];
    assert n == |w|;
    assert s[..n] == w && s[n..] == t;
  }

  lemma {:induction false} FieldsIgnoreTrailing(s: string, t: string)
    requires Blank(t)
    ensures Fields(s + t) == Fields(s)
    decreases |s|
  {
    hide IsSpace;
    if s == "" {
      assert s + t == t;
      FieldsAreWords(t);
    } else if IsSpace(s[0]) {
      FieldsIgnoreTrailing(s[1..], t);
      assert (s + t)[1..] == s[1..] + t;
    } else {
      var n := WordLength(s);
      var w, rest := s[..n], s[n..];
      FieldsIgnoreTrailing(rest, t);
      WordPrefix(w, rest);
      WordPrefix(w, rest + t);
      assert s == w + rest && s + t == w + (rest + t);
    }
  }

  lemma {:induction false} FieldsIgnoreLeading(s: string)
    ensures Fields(TrimLeft(s)) == Fields(s)
  {
    if s != "" && IsSpace(s[0]) {
      FieldsIgnoreLeading(s[1..]);
    }
  }

  lemma {:induction false} TrimRightSplits(s: string)
    ensures exists t :: Blank(t) && s == TrimRight(s) + t
  {
    TrimRightShape(s);
    var k := |TrimRight(s)|;
    if Blank(s) {
      assert s == TrimRight(s) + s;
    } else {
      TrimRightTail(s);
      assert s == s[..k] + s[k..];
    }
  }

  lemma {:induction false} TrimRightTail(s: string)
    ensures |TrimRight(s)| <= |s| && Blank(s[|TrimRight(s)|..])
  {
    if s != "" && IsSpace(s[|s| - 1]) {
      var s' := s[..|s| - 1];
      TrimRightTail(s');
      var k := |TrimRight(s)|;
      assert forall i :: 0 <= i < |s'[k..]| ==> s[k..][i] == s'[k..][i];
    }
  }

  // Splitting into words does not see surrounding space.
  lemma FieldsIgnoreTrim(s: string)
    ensures Fields(TrimSpace(s)) == Fields(s)
  {
    var l := TrimLeft(s);
    FieldsIgnoreLeading(s);
    TrimRightSplits(l);
    var t :| Blank(t) && l == TrimRight(l) + t;
    FieldsIgnoreTrailing(TrimRight(l), t);
  }

  // Splitting undoes joining.
  lemma {:induction false} FieldsOfJoin(ws: seq<string>)
    requires Words(ws)
    ensures Fields(Join(ws)) == ws
  {
    if |ws| == 1 {
      WordPrefix(ws[0], "");
      assert ws[0] + "" == ws[0];
    } else if |ws| > 1 {
      FieldsOfJoin(ws[1..]);
      var t := " " + Join(ws[1..]);
      assert t[0] == ' ' && t[1..] == Join(ws[1..]);
      WordPrefix(ws[0], t);
      assert ws[0] + t == Join(ws);
    }
  }

  lemma NormalizeSpaceIsStable(s: string)
    ensures Fields(NormalizeSpace(s)) == Fields(s)
    ensures NormalizeSpace(NormalizeSpace(s)) == NormalizeSpace(s)
    ensures NormalizeSpace(s) == Join(Fields(s))
  {
    FieldsIgnoreTrim(s);
    FieldsAreWords(s);
    FieldsOfJoin(Fields(s));
    FieldsIgnoreTrim(NormalizeSpace(s));
  }

  lemma WordNormalizesToItself(w: string)
    requires IsWord(w)
    ensures NormalizeSpace(w) == w
  {
    assert Words([w]);
    FieldsOfJoin([w]);
    FieldsIgnoreTrim(w);
    assert Join([w]) == w;
  }

  lemma {:induction false} JoinIsBlankOnlyIfEmpty(ws: seq<string>)
    requires Words(ws)
    ensures ws != [] ==> Join(ws) != "" && !IsSpace(Join(ws)[0])
    ensures Join(ws) == "" <==> ws == []
  {
  }

  lemma NormalizeSpaceShape(s: string)
    ensures NormalizeSpace(s) == "" <==> Blank(s)
    ensures NormalizeSpace(s) != "" ==> !IsSpace(NormalizeSpace(s)[0])
  {
    NormalizeSpaceIsStable(s);
    FieldsAreWords(s);
    JoinIsBlankOnlyIfEmpty(Fields(s));
  }

  lemma {:induction false} WordOfJoin(ws: seq<string>, i: nat)
    requires i < |ws|
    ensures forall j :: 0 <= j < |ws[i]| ==> ws[i][j] in Join(ws)
  {
    if |ws| > 1 && i > 0 {
      WordOfJoin(ws[1..], i - 1);
      assert ws[i] == ws[1..][i - 1];
      var rest := Join(ws[1..]);
      forall j | 0 <= j < |ws[i]| ensures ws[i][j] in Join(ws) {
        assert ws[i][j] in rest;
      }
    }
  }

  lemma {:induction false} CharsOfJoin(ws: seq<string>, c: char)
    requires c in Join(ws) && c != ' '
    ensures exists i :: 0 <= i < |ws| && c in ws[i]
  {
    if |ws| == 1 {
      assert c in ws[0];
    } else if |ws| > 1 && c !in ws[0] {
      CharsOfJoin(ws[1..], c);
      var i :| 0 <= i < |ws[1..]| && c in ws[1..][i];
      assert c in ws[i + 1];
    }
  }

  lemma {:induction false} CharsOfFields(s: string, c: char, i: nat)
    requires i < |Fields(s)| && c in Fields(s)[i]
    ensures c in s
    decreases |s|
  {
    if IsSpace(s[0]) {
      CharsOfFields(s[1..], c, i);
    } else if i > 0 {
      var n := WordLength(s);
      CharsOfFields(s[n..], c, i - 1);
    }
  }

  lemma {:induction false} CharsInFields(s: string, c: char)
    requires c in s && !IsSpace(c)
    ensures exists i :: 0 <= i < |Fields(s)| && c in Fields(s)[i]
    decreases |s|
  {
    if IsSpace(s[0]) {
      CharsInFields(s[1..], c);
      assert Fields(s) == Fields(s[1..]);
    } else {
      var n := WordLength(s);
      assert s == s[..n] + s[n..];
      assert Fields(s)[0] == s[..n] && Fields(s)[1..] == Fields(s[n..]);
      if c !in s[..n] {
        CharsInFields(s[n..], c);
        var i :| 0 <= i < |Fields(s[n..])| && c in Fields(s[n..])[i];
        assert c in Fields(s)[i + 1];
      }
    }
  }

  // ---- Bytes ----

  function ByteLength(c: char): (n: nat)
    ensures 1 <= n <= 4
  {
    if c < '\U{0080}' || c == STRAY then 1 else if c < '\U{0800}' then 2 else if c < '\U{10000}' then 3 else 4
  }

  // len(s)
  function Size(s: string): nat {
    if s == "" then 0 else ByteLength(s[0]) + Size(s[1..])
  }

  function Strays(n: nat): (s: string)
    ensures |s| == n && forall i :: 0 <= i < n ==> s[i] == STRAY
  {
    seq(n, _ => STRAY)
  }

  // if len(s) > max { s = s[:max] }: whole characters as long as they fit, then what fits of the next.
  function Cut(s: string, max: nat): string {
    if s == "" then ""
    else if ByteLength(s[0]) <= max then [s[0]] + Cut(s[1..], max - ByteLength(s[0]))
    else Strays(max)
  }

  // Text that Postgres takes: valid UTF-8 without a NUL character.
  predicate Storable(s: string) {
    forall i :: 0 <= i < |s| ==> s[i] != STRAY && s[i] != '\0'
  }

  // Splitting and joining changes nothing but spaces.
  lemma StorableIgnoresSpacing(s: string)
    ensures Storable(NormalizeSpace(s)) <==> Storable(s)
  {
    NormalizeSpaceIsStable(s);
    var ws := Fields(s);
    if i :| 0 <= i < |s| && !(s[i] != STRAY && s[i] != '\0') {
      CharsInFields(s, s[i]);
      var k :| 0 <= k < |ws| && s[i] in ws[k];
      WordOfJoin(ws, k);
      assert s[i] in Join(ws);
    }
    if i :| 0 <= i < |Join(ws)| && !(Join(ws)[i] != STRAY && Join(ws)[i] != '\0') {
      var c := Join(ws)[i];
      CharsOfJoin(ws, c);
      var k :| 0 <= k < |ws| && c in ws[k];
      CharsOfFields(s, c, k);
    }
  }

  lemma {:induction false} SizeOfConcat(s: string, t: string)
    ensures Size(s + t) == Size(s) + Size(t)
  {
    if s == "" {
      assert s + t == t;
    } else {
      assert (s + t)[1..] == s[1..] + t;
      SizeOfConcat(s[1..], t);
    }
  }

  lemma {:induction false} SizeOfStrays(n: nat)
    ensures Size(Strays(n)) == n
  {
    if n > 0 {
      assert Strays(n)[1..] == Strays(n - 1);
      SizeOfStrays(n - 1);
    }
  }

  lemma {:induction false} CutFits(s: string, max: nat)
    ensures Size(Cut(s, max)) <= max
    ensures Size(s) <= max ==> Cut(s, max) == s
    ensures Size(s) > max ==> Size(Cut(s, max)) == max
  {
    if s != "" {
      if ByteLength(s[0]) <= max {
        CutFits(s[1..], max - ByteLength(s[0]));
      } else {
        SizeOfStrays(max);
      }
    }
  }

  // The cut falls between two characters, or the text is short enough.
  predicate CutsCleanly(s: string, max: nat) {
    Size(s) <= max || exists k :: 0 <= k <= |s| && Size(s[..k]) == max
  }

  // What is left of a storable text is storable exactly if the cut falls between two characters.
  lemma {:induction false} CutIsStorable(s: string, max: nat)
    requires Storable(s)
    ensures Storable(Cut(s, max)) <==> CutsCleanly(s, max)
  {
    if s != "" {
      var n := ByteLength(s[0]);
      if n <= max {
        CutIsStorable(s[1..], max - n);
        CutOneLater(s, max);
      } else {
        if max > 0 { assert Strays(max)[0] == STRAY; }
        forall k | 0 <= k <= |s| && Size(s[..k]) == max ensures max == 0 {
          if k > 0 { assert s[..k][0] == s[0]; }
        }
        if max == 0 { assert s[..0] == ""; }
      }
    }
  }

  lemma CutOneLater(s: string, max: nat)
    requires s != "" && ByteLength(s[0]) <= max
    ensures CutsCleanly(s, max) <==> CutsCleanly(s[1..], max - ByteLength(s[0]))
    ensures Storable(Cut(s, max)) && Storable([s[0]]) <==> Storable(Cut(s[1..], max - ByteLength(s[0]))) && Storable([s[0]])
  {
    var n := ByteLength(s[0]);
    var rest := Cut(s[1..], max - n);
    assert Cut(s, max) == [s[0]] + rest;
    assert forall i :: 0 <= i < |rest| ==> rest[i] == Cut(s, max)[i + 1];
    if k :| 0 <= k <= |s| && Size(s[..k]) == max && k > 0 {
      assert s[..k][1..] == s[1..][..k - 1];
    }
    if k :| 0 <= k <= |s[1..]| && Size(s[1..][..k]) == max - n {
      assert s[..k + 1][1..] == s[1..][..k];
      assert Size(s[..k + 1]) == max;
    }
  }

  lemma {:induction false} JoinOfFieldsIsShort(s: string)
    ensures Size(Join(Fields(s))) <= Size(s)
    ensures Fields(s) != [] && IsSpace(s[0]) ==> Size(Join(Fields(s))) < Size(s)
    decreases |s|
  {
    if s != "" {
      if IsSpace(s[0]) {
        JoinOfFieldsIsShort(s[1..]);
      } else {
        var n := WordLength(s);
        var ws := Fields(s[n..]);
        JoinOfFieldsIsShort(s[n..]);
        SizeOfConcat(s[..n], s[n..]);
        assert s == s[..n] + s[n..];
        assert Fields(s) == [s[..n]] + ws;
        if ws != [] {
          assert Fields(s)[1..] == ws;
          SizeOfConcat(s[..n], " ");
          SizeOfConcat(s[..n] + " ", Join(ws));
          assert Join(Fields(s)) == s[..n] + " " + Join(ws);
        }
      }
    }
  }

  lemma NormalizeSpaceIsShort(s: string)
    ensures Size(NormalizeSpace(s)) <= Size(s)
  {
    NormalizeSpaceIsStable(s);
    JoinOfFieldsIsShort(s);
  }

  ghost predicate KeepsSpaces(f: char -> char) {
    forall c :: IsSpace(f(c)) == IsSpace(c)
  }

  function MapWords(f: char -> char, ws: seq<string>): (r: seq<string>)
    ensures |r| == |ws| && forall i :: 0 <= i < |ws| ==> r[i] == MapChars(f, ws[i])
  {
    seq(|ws|, i requires 0 <= i < |ws| => MapChars(f, ws[i]))
  }

  // A character map that never makes or removes a space acts word by word.
  lemma {:induction false} FieldsOfMap(f: char -> char, s: string)
    requires KeepsSpaces(f)
    ensures Fields(MapChars(f, s)) == MapWords(f, Fields(s))
    decreases |s|
  {
    var m := MapChars(f, s);
    if s == "" {
    } else if IsSpace(s[0]) {
      FieldsOfMap(f, s[1..]);
      assert m[1..] == MapChars(f, s[1..]);
      assert IsSpace(m[0]);
    } else {
      var n := WordLength(s);
      FieldsOfMap(f, s[n..]);
      assert s == s[..n] + s[n..];
      FirstWordOfMap(f, s[..n], s[n..]);
    }
  }

  lemma MapOfWord(f: char -> char, w: string, t: string)
    requires KeepsSpaces(f)
    requires IsWord(w) && (t == "" || IsSpace(t[0]))
    ensures IsWord(MapChars(f, w)) && (t == "" || IsSpace(MapChars(f, t)[0]))
  {
    hide IsSpace;
  }

  lemma MapSplits(f: char -> char, w: string, t: string, ws: seq<string>)
    ensures MapChars(f, w + t) == MapChars(f, w) + MapChars(f, t)
    ensures MapWords(f, [w] + ws) == [MapChars(f, w)] + MapWords(f, ws)
  {
  }

  lemma FirstWordOfMap(f: char -> char, w: string, t: string)
    requires KeepsSpaces(f)
    requires IsWord(w) && (t == "" || IsSpace(t[0]))
    requires Fields(MapChars(f, t)) == MapWords(f, Fields(t))
    ensures Fields(MapChars(f, w + t)) == MapWords(f, Fields(w + t))
  {
    hide *;
    MapOfWord(f, w, t);
    WordPrefix(w, t);
    WordPrefix(MapChars(f, w), MapChars(f, t));
    MapSplits(f, w, t, Fields(t));
  }

  lemma {:induction false} JoinOfMap(f: char -> char, ws: seq<string>)
    requires f(' ') == ' '
    ensures Join(MapWords(f, ws)) == MapChars(f, Join(ws))
  {
    if |ws| > 1 {
      JoinOfMap(f, ws[1..]);
      assert MapWords(f, ws)[1..] == MapWords(f, ws[1..]);
    }
  }

  // Two lists of words that a character map makes equal, character by character.
  ghost predicate WordsAgree(f: char -> char, v: seq<string>, w: seq<string>) {
    |v| == |w| && forall i :: 0 <= i < |v| ==> |v[i]| == |w[i]| && forall j :: 0 <= j < |v[i]| ==> f(v[i][j]) == f(w[i][j])
  }

  lemma {:induction false} WordsStayWords(f: char -> char, ws: seq<string>)
    requires KeepsSpaces(f)
    requires Words(ws)
    ensures Words(MapWords(f, ws))
  {
  }

  // Joining mapped words loses nothing but the map's own confusions.
  lemma JoinedAlike(f: char -> char, v: seq<string>, w: seq<string>)
    requires KeepsSpaces(f) && f(' ') == ' ' && Words(v) && Words(w)
    ensures MapChars(f, Join(v)) == MapChars(f, Join(w)) <==> WordsAgree(f, v, w)
  {
    JoinOfMap(f, v);
    JoinOfMap(f, w);
    WordsStayWords(f, v);
    WordsStayWords(f, w);
    FieldsOfJoin(MapWords(f, v));
    FieldsOfJoin(MapWords(f, w));
    MappedAlike(f, v, w);
  }

  lemma MappedAlike(f: char -> char, v: seq<string>, w: seq<string>)
    ensures MapWords(f, v) == MapWords(f, w) <==> WordsAgree(f, v, w)
  {
    if MapWords(f, v) == MapWords(f, w) {
      forall i | 0 <= i < |v| ensures MapChars(f, v[i]) == MapChars(f, w[i]) {
        assert MapWords(f, v)[i] == MapWords(f, w)[i];
      }
    }
    if WordsAgree(f, v, w) {
      forall i | 0 <= i < |v| ensures MapWords(f, v)[i] == MapWords(f, w)[i] {
        assert MapChars(f, v[i]) == MapChars(f, w[i]);
      }
    }
  }

  // The same words, up to the case of letters.
  ghost predicate SameWords(a: string, b: string) {
    var v, w := Fields(a), Fields(b);
    |v| == |w| && forall i :: 0 <= i < |v| ==> |v[i]| == |w[i]| && forall j :: 0 <= j < |v[i]| ==> SameLetter(v[i][j], w[i][j])
  }

  lemma AlikeIsSame(a: string, b: string)
    ensures WordsAgree(LowerChar, Fields(a), Fields(b)) <==> SameWords(a, b)
  {
    forall c, d ensures LowerChar(c) == LowerChar(d) <==> SameLetter(c, d) {
      LowerJoinsCases(c, d);
    }
    hide LowerChar, SameLetter, Fields;
  }

  // Lower-cased text with normalized spaces is equal exactly for the same words, up to case.
  lemma FoldedTextsAreEqual(a: string, b: string)
    ensures ToLower(NormalizeSpace(a)) == ToLower(NormalizeSpace(b)) <==> SameWords(a, b)
  {
    NormalizeSpaceIsStable(a);
    NormalizeSpaceIsStable(b);
    FieldsAreWords(a);
    FieldsAreWords(b);
    LowerKeepsSpaces();
    JoinedAlike(LowerChar, Fields(a), Fields(b));
    AlikeIsSame(a, b);
    hide LowerChar, Fields, Join, SameWords, WordsAgree;
  }

  lemma TrimmedStays(s: string)
    requires s == "" || (!IsSpace(s[0]) && !IsSpace(s[|s| - 1]))
    ensures TrimSpace(s) == s
  {
  }

  lemma LowerIsStable(s: string)
    ensures ToLower(ToLower(s)) == ToLower(s)
  {
    assert forall c :: LowerChar(LowerChar(c)) == LowerChar(c);
  }

  lemma LowerKeepsSpaces()
    ensures KeepsSpaces(LowerChar) && LowerChar(' ') == ' '
  {
  }

  // ---- Decimal numbers ----

  // The number that a string of digits denotes; the empty string denotes 0.
  function Digits(s: string): Option<nat> {
    if s == "" then Some(0)
    else if !('0' <= s[|s| - 1] <= '9') then None
    else
      match Digits(s[..|s| - 1])
      case None => None
      case Some(n) => Some(10 * n + (s[|s| - 1] as int - '0' as int))
  }

  function Digit(n: nat): char
    requires n < 10
  {
    (n + '0' as int) as char
  }

  function Decimal(n: nat): string {
    if n < 10 then [Digit(n)] else Decimal(n / 10) + [Digit(n % 10)]
  }

  function Signed(n: int): string {
    if n < 0 then "-" + Decimal(-n) else Decimal(n)
  }

  lemma {:induction false} DigitsOfDecimal(n: nat)
    ensures Digits(Decimal(n)) == Some(n)
  {
    if n >= 10 {
      DigitsOfDecimal(n / 10);
      assert Decimal(n)[..|Decimal(n)| - 1] == Decimal(n / 10);
    } else {
      assert Decimal(n)[..0] == "";
    }
  }

  lemma {:induction false} DecimalHasNoSign(n: nat)
    ensures Decimal(n)[0] != '-'
  {
    if n >= 10 { DecimalHasNoSign(n / 10); }
  }

  lemma SignedIsInjective(a: int, b: int)
    requires Signed(a) == Signed(b)
    ensures a == b
  {
    DecimalHasNoSign(if a < 0 then -a else a);
    DecimalHasNoSign(if b < 0 then -b else b);
    DigitsOfDecimal(if a < 0 then -a else a);
    DigitsOfDecimal(if b < 0 then -b else b);
    if a < 0 {
      assert Signed(a)[1..] == Decimal(-a);
      if b < 0 { assert Signed(b)[1..] == Decimal(-b); }
    }
  }

  function Zeros(k: nat): (s: string)
    ensures |s| == k && forall i :: 0 <= i < k ==> s[i] == '0'
  {
    seq(k, _ => '0')
  }

  // s is the decimal form of n, perhaps with leading zeros.
  ghost predicate Numeral(s: string, n: nat) {
    exists zeros: nat :: s == Zeros(zeros) + Decimal(n)
  }

  lemma {:induction false} DigitsOfZeros(k: nat)
    ensures Digits(Zeros(k)) == Some(0)
  {
    if k > 0 {
      assert Zeros(k)[..k - 1] == Zeros(k - 1);
      DigitsOfZeros(k - 1);
    }
  }

  lemma {:induction false} NumeralIsRead(zeros: nat, n: nat)
    ensures Digits(Zeros(zeros) + Decimal(n)) == Some(n)
    decreases n
  {
    var s := Zeros(zeros) + Decimal(n);
    if n < 10 {
      assert s[..|s| - 1] == Zeros(zeros);
      DigitsOfZeros(zeros);
    } else {
      assert s[..|s| - 1] == Zeros(zeros) + Decimal(n / 10);
      NumeralIsRead(zeros, n / 10);
    }
  }

  // One more digit behind a numeral.
  lemma NumeralGrows(before: string, m: nat, d: nat)
    requires Numeral(before, m) && d < 10
    ensures Numeral(before + [Digit(d)], 10 * m + d)
  {
    var zeros: nat :| before == Zeros(zeros) + Decimal(m);
    var n := 10 * m + d;
    if m == 0 {
      assert before + [Digit(d)] == Zeros(zeros + 1) + Decimal(n);
    } else {
      assert n / 10 == m && n % 10 == d;
      hide Zeros;
      assert Decimal(n) == Decimal(m) + [Digit(d)];
      hide Decimal, Digit;
      assert before + [Digit(d)] == Zeros(zeros) + Decimal(n);
    }
  }

  lemma DigitIs(c: char)
    requires '0' <= c <= '9'
    ensures Digit(c as int - '0' as int) == c && 0 <= c as int - '0' as int < 10
    ensures Numeral([c], c as int - '0' as int)
  {
    assert [c] == Zeros(0) + Decimal(c as int - '0' as int);
  }

  lemma {:induction false} DigitsAreNumeral(s: string)
    requires s != "" && Digits(s).Some?
    ensures Numeral(s, Digits(s).value)
    decreases |s|
  {
    var before, c := s[..|s| - 1], s[|s| - 1];
    DigitIs(c);
    assert s == before + [c];
    if before == "" {
      assert s == [c] && Digits(before) == Some(0);
    } else {
      DigitsAreNumeral(before);
      hide Numeral;
      NumeralGrows(before, Digits(before).value, c as int - '0' as int);
    }
  }

  // A string of digits denotes exactly the number whose numeral it is.
  lemma DigitsMeans(s: string, n: nat)
    ensures s != "" && Digits(s) == Some(n) <==> Numeral(s, n)
    ensures Numeral(s, n) ==> s[0] != '-' && s[0] != '+'
  {
    if Numeral(s, n) {
      var zeros: nat :| s == Zeros(zeros) + Decimal(n);
      NumeralIsRead(zeros, n);
      DigitsAreDigits(s);
    }
    if s != "" && Digits(s) == Some(n) {
      DigitsAreNumeral(s);
    }
  }

  lemma {:induction false} DigitsAreDigits(s: string)
    requires Digits(s).Some?
    ensures forall i :: 0 <= i < |s| ==> '0' <= s[i] <= '9'
  {
    if s != "" {
      DigitsAreDigits(s[..|s| - 1]);
      assert s == s[..|s| - 1] + [s[|s| - 1]];
    }
  }
}
