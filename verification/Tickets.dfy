// What EnrichClaimedNote of internal/services/service.go does to a parsed note before it saves
// it: AddTicketFallbackMentions, NormalizeEntityMentionsForNote and NormalizeDecisionsForNote of
// internal/models/entity_normalization.go.
module Tickets {
  import opened Options
  import opened Text
  import opened Entities
  import Records

  const MAX_DECISIONS := 20

  // ---- The ticket pattern \b([A-Za-z][A-Za-z0-9]+-[0-9]+)\b ----

  predicate IsAlnum(c: char) { IsLetter(c) || IsDigit(c) }

  predicate IsWordChar(c: char) { IsAlnum(c) || c == '_' }

  predicate Boundary(s: string, i: nat)
    requires i <= |s|
  {
    (i > 0 && IsWordChar(s[i - 1])) != (i < |s| && IsWordChar(s[i]))
  }

  function AlnumEnd(s: string, i: nat): (j: nat)
    requires i <= |s|
    ensures i <= j <= |s| && forall x :: i <= x < j ==> IsAlnum(s[x])
    ensures j < |s| ==> !IsAlnum(s[j])
    decreases |s| - i
  {
    if i < |s| && IsAlnum(s[i]) then AlnumEnd(s, i + 1) else i
  }

  function DigitEnd(s: string, i: nat): (j: nat)
    requires i <= |s|
    ensures i <= j <= |s| && forall x :: i <= x < j ==> IsDigit(s[x])
    ensures j < |s| ==> !IsDigit(s[j])
    decreases |s| - i
  {
    if i < |s| && IsDigit(s[i]) then DigitEnd(s, i + 1) else i
  }

  // Where the greedy match that starts at i ends.
  function MatchAt(s: string, i: nat): (end: Option<nat>)
    requires i < |s|
    ensures end.Some? ==> i < end.value <= |s|
  {
    if !IsLetter(s[i]) || !Boundary(s, i) then None
    else
      var j := AlnumEnd(s, i + 1);
      if j < i + 2 || j >= |s| || s[j] != '-' then None
      else
        var k := DigitEnd(s, j + 1);
        if k == j + 1 || !Boundary(s, k) then None else Some(k)
  }

  // FindAllString: leftmost matches that do not overlap.
  function FindAll(s: string, i: nat): seq<string>
    requires i <= |s|
    decreases |s| - i
  {
    if i == |s| then []
    else
      match MatchAt(s, i)
      case None => FindAll(s, i + 1)
      case Some(k) => [s[i..k]] + FindAll(s, k)
  }

  // s[i..k] is a ticket key with no letter, digit or underscore on either side.
  ghost predicate IsOccurrence(s: string, i: nat, k: nat) {
    && i < k <= |s| && SpellsKey(s[i..k])
    && (i > 0 ==> !WordCode(s[i - 1])) && (k < |s| ==> !WordCode(s[k]))
  }

  predicate WordCode(c: char) { LetterCode(c) || DigitCode(c) || c as int == 95 }

  lemma OccurrenceIsBounded(s: string, i: nat, k: nat)
    ensures IsOccurrence(s, i, k) <==> i < k <= |s| && Boundary(s, i) && Boundary(s, k) && IsTicketKey(s[i..k])
  {
    if i < k <= |s| {
      KeysAreSpelled(s[i..k]);
      assert s[i..k][0] == s[i] && s[i..k][k - i - 1] == s[k - 1];
    }
  }

  // The pattern matches at i exactly up to the end of the ticket key that stands there.
  lemma MatchIsOccurrence(s: string, i: nat, k: nat)
    requires i < |s|
    ensures MatchAt(s, i) == Some(k) <==> IsOccurrence(s, i, k)
  {
    hide SpellsKey, IsOccurrence;
    OccurrenceIsBounded(s, i, k);
    if MatchAt(s, i) == Some(k) {
      var j := AlnumEnd(s, i + 1);
      assert s[i..k][j - i] == '-';
      assert forall x :: 1 <= x < j - i ==> s[i..k][x] == s[i + x];
      assert forall x :: j - i < x < k - i ==> s[i..k][x] == s[i + x];
      assert IsTicketKey(s[i..k]);
    }
    if IsOccurrence(s, i, k) {
      KeyHasOneShape(s, i, k);
    }
  }

  lemma KeyHasOneShape(s: string, i: nat, k: nat)
    requires IsOccurrence(s, i, k)
    ensures MatchAt(s, i) == Some(k)
  {
    var v := s[i..k];
    var d :| 2 <= d < |v| - 1 && v[d] == '-' && IsLetter(v[0])
             && (forall x :: 1 <= x < d ==> IsLetter(v[x]) || IsDigit(v[x]))
             && (forall x :: d < x < |v| ==> IsDigit(v[x]));
    hide IsOccurrence, MatchAt;
    KeyMatches(s, i, k, i + d);
  }

  // A ticket key in s whose hyphen stands at j.
  lemma KeyMatches(s: string, i: nat, k: nat, j: nat)
    requires IsOccurrence(s, i, k) && i + 2 <= j < k - 1 && s[i..k][j - i] == '-' && IsLetter(s[i..k][0])
    requires forall x :: 1 <= x < j - i ==> IsLetter(s[i..k][x]) || IsDigit(s[i..k][x])
    requires forall x :: j - i < x < k - i ==> IsDigit(s[i..k][x])
    ensures MatchAt(s, i) == Some(k)
  {
    hide IsTicketKey;
    forall x | i + 1 <= x < j ensures IsAlnum(s[x]) {
      assert s[i..k][x - i] == s[x];
    }
    forall x | j < x < k ensures IsDigit(s[x]) {
      assert s[i..k][x - i] == s[x];
    }
    assert AlnumEnd(s, i + 1) == j;
    assert k < |s| ==> !IsWordChar(s[k]) by { assert IsDigit(s[k - 1]); }
    assert DigitEnd(s, j + 1) == k;
  }

  // No occurrence starts inside another, so the scan finds them all.
  lemma {:induction false} ScanFindsAll(s: string, from: nat, i: nat, k: nat)
    requires from <= i && IsOccurrence(s, i, k)
    ensures s[i..k] in FindAll(s, from)
    decreases |s| - from
  {
    if from == i {
      MatchIsOccurrence(s, i, k);
    } else {
      match MatchAt(s, from)
      case None => ScanFindsAll(s, from + 1, i, k);
      case Some(end) =>
        MatchIsOccurrence(s, from, end);
        if i < end {
          OccurrencesDoNotOverlap(s, from, end, i, k);
        }
        ScanFindsAll(s, end, i, k);
    }
  }

  lemma OccurrencesDoNotOverlap(s: string, i: nat, k: nat, i1: nat, k1: nat)
    requires IsOccurrence(s, i, k) && i < i1 < k
    ensures !IsOccurrence(s, i1, k1)
  {
    KeyHasOneShape(s, i, k);
    var j := AlnumEnd(s, i + 1);
    if i1 < j {
      assert IsAlnum(s[i1 - 1]) && IsAlnum(s[i1]);
    } else if i1 < |s| {
      assert !IsLetter(s[i1]);
    }
  }

  ghost predicate Occurs(s: string, m: string) {
    exists i: nat, k: nat :: IsOccurrence(s, i, k) && s[i..k] == m
  }

  // Everything that the scan finds is a ticket key that occurs there.
  lemma {:induction false} ScanFindsKeys(s: string, from: nat)
    requires from <= |s|
    ensures forall m :: m in FindAll(s, from) ==> IsTicketKey(m) && Occurs(s, m)
    decreases |s| - from
  {
    if from < |s| {
      match MatchAt(s, from)
      case None => ScanFindsKeys(s, from + 1);
      case Some(k) =>
        MatchIsOccurrence(s, from, k);
        OccurrenceIsBounded(s, from, k);
        hide IsOccurrence, IsTicketKey, MatchAt, Boundary;
        ScanFindsKeys(s, k);
    }
  }

  // ---- Preparing a parsed note ----

  function TicketMention(m: string): seq<Mention> {
    match NormalizeTicketKey(m)
    case None => []
    case Some(norm) => [Mention("ticket", norm, m, norm, "")]
  }

  function TicketMentions(found: seq<string>): seq<Mention> {
    if found == [] then [] else TicketMentions(found[..|found| - 1]) + TicketMention(found[|found| - 1])
  }

  method AddTicketFallbackMentions(mentions: seq<Mention>, raw: string) returns (out: seq<Mention>)
    ensures out == mentions + TicketMentions(FindAll(raw, 0))
  {
    hide NormalizeTicketKey, FindAll, IsTicketKey;
    var found := FindAll(raw, 0);
    ScanFindsKeys(raw, 0);
    out := mentions;
    for i := 0 to |found|
      invariant out == mentions + TicketMentions(found[..i])
    {
      assert found[..i + 1][..i] == found[..i];
      var norm := NormalizeTicketKey(found[i]);
      if norm.Some? {
        out := out + [Mention("ticket", norm.value, found[i], norm.value, "")];
      }
    }
    assert found[..|found|] == found;
  }

  function TakeDecision(out: seq<Decision>, d: Decision): seq<Decision> {
    if |out| >= MAX_DECISIONS then out
    else
      match NormalizeDecision(d)
      case None => out
      case Some(n) => out + [n]
  }

  function NormalizeDecisions(ds: seq<Decision>): seq<Decision> {
    if ds == [] then [] else TakeDecision(NormalizeDecisions(ds[..|ds| - 1]), ds[|ds| - 1])
  }

  method NormalizeDecisionsForNote(ds: seq<Decision>) returns (out: seq<Decision>)
    ensures out == NormalizeDecisions(ds)
  {
    hide NormalizeDecision;
    out := [];
    for i := 0 to |ds|
      invariant out == NormalizeDecisions(ds[..i])
    {
      assert ds[..i + 1][..i] == ds[..i];
      if |out| >= MAX_DECISIONS {
        continue;
      }
      var n := NormalizeDecision(ds[i]);
      if n.Some? {
        out := out + [n.value];
      }
    }
    assert ds[..|ds|] == ds;
  }

  function Prepared(p: Records.Parsed, raw: string): Records.Parsed {
    p.(mentions := ToMentions(NormalizeMentions(p.mentions + TicketMentions(FindAll(raw, 0))).out),
       decisions := NormalizeDecisions(p.decisions))
  }

  method Prepare(p: Records.Parsed, raw: string) returns (prepared: Records.Parsed)
    ensures prepared == Prepared(p, raw)
  {
    hide NormalizeMentions, NormalizeDecisions, FindAll, TicketMentions;
    var mentions := AddTicketFallbackMentions(p.mentions, raw);
    var entities, _ := NormalizeEntityMentionsForNote(mentions);
    var decided := NormalizeDecisionsForNote(p.decisions);
    var rebuilt: seq<Mention> := [];
    for i := 0 to |entities|
      invariant rebuilt == ToMentions(entities[..i])
    {
      rebuilt := rebuilt + [ToMention(entities[i])];
      assert ToMentions(entities[..i + 1]) == ToMentions(entities[..i]) + [ToMention(entities[i])];
    }
    assert entities[..|entities|] == entities;
    prepared := p.(mentions := rebuilt, decisions := decided);
  }

  // ---- No ticket of the text is lost ----

  lemma KeyHasNoSpace(m: string)
    requires IsTicketKey(m)
    ensures IsWord(m)
  {
  }

  lemma {:induction false} KeyIsAscii(s: string)
    requires forall i :: 0 <= i < |s| ==> IsAlnum(s[i]) || s[i] == '-'
    ensures Size(s) == |s|
  {
    if s != "" { KeyIsAscii(s[1..]); }
  }

  // The mention made for a ticket key is stored under that key in upper case.
  lemma TicketMentionKey(m: string)
    requires IsTicketKey(m) && |m| <= MAX_ENTITY_VALUE
    ensures TicketMention(m) == [FallbackMention(m)]
    ensures NormalizeEntityMention(FallbackMention(m)).Some?
    ensures Key(NormalizeEntityMention(FallbackMention(m)).value) == ("ticket", MapChars(UpperChar, m))
  {
    KeyNormalizesToItself(m);
    FallbackIsStored(m);
    hide IsTicketKey, NormalizeTicketKey, NormalizeEntityMention;
  }

  function FallbackMention(m: string): Mention {
    Mention("ticket", MapChars(UpperChar, m), m, MapChars(UpperChar, m), "")
  }

  lemma FallbackIsStored(m: string)
    requires m != "" && TrimSpace(m) != "" && NormalizeSpace(m) == m && Cut(m, MAX_ENTITY_VALUE) == m
    requires NormalizeTicketKey(m) == Some(MapChars(UpperChar, m))
    ensures NormalizeEntityMention(FallbackMention(m)).Some?
    ensures Key(NormalizeEntityMention(FallbackMention(m)).value) == ("ticket", MapChars(UpperChar, m))
  {
    hide NormalizeTicketKey, NormalizeType, NormalizeSpace, MapChars, Cut, TrimSpace, Blank, IsSpace;
    TicketIsAType();
    assert FirstNonBlank([m, MapChars(UpperChar, m), MapChars(UpperChar, m)]) == m;
  }

  lemma KeyNormalizesToItself(m: string)
    requires IsTicketKey(m) && |m| <= MAX_ENTITY_VALUE
    ensures m != "" && TrimSpace(m) != "" && NormalizeSpace(m) == m && Cut(m, MAX_ENTITY_VALUE) == m
    ensures NormalizeTicketKey(m) == Some(MapChars(UpperChar, m))
  {
    KeyHasNoSpace(m);
    WordNormalizesToItself(m);
    KeyIsAscii(m);
    CutFits(m, MAX_ENTITY_VALUE);
    TrimSpaceShape(m);
    assert !Blank(m);
    hide IsTicketKey, NormalizeSpace, MapChars, Size, Cut, TrimSpace;
  }

  lemma TypeIsLower(typ: string)
    ensures NormalizeType(typ) == ToLower(TrimSpace(typ))
  {
  }

  lemma TicketIsAType()
    ensures NormalizeType("ticket") == "ticket"
  {
    TrimmedStays("ticket");
  }

  lemma {:induction false} FoundIsMentioned(found: seq<string>, m: string)
    requires m in found && TicketMention(m) == [FallbackMention(m)]
    ensures FallbackMention(m) in TicketMentions(found)
  {
    hide TicketMention;
    var n := |found| - 1;
    if m != found[n] {
      assert m in found[..n];
      FoundIsMentioned(found[..n], m);
    }
  }

  lemma {:induction false} NormalizedAreKept(ns: seq<Decision>)
    requires forall n :: n in ns ==> NormalizeDecision(n).Some?
    ensures |Records.KeptDecisions(ns)| == |ns|
    ensures forall i :: 0 <= i < |ns| ==> Records.KeptDecisions(ns)[i] == NormalizeDecision(ns[i]).value
  {
    hide NormalizeDecision;
    if ns != [] {
      NormalizedAreKept(ns[..|ns| - 1]);
    }
  }

  lemma {:induction false} DecisionsAreNormalized(ds: seq<Decision>)
    ensures forall n :: n in NormalizeDecisions(ds) ==> exists d :: d in ds && NormalizeDecision(d) == Some(n)
    ensures |NormalizeDecisions(ds)| <= MAX_DECISIONS
  {
    hide NormalizeDecision;
    if ds != [] {
      var n := |ds| - 1;
      DecisionsAreNormalized(ds[..n]);
      assert ds == ds[..n] + [ds[n]];
    }
  }

  // From the parsed note to the tables: the decisions that the store inserts are storable exactly
  // if the service's own cuts left storable text; its second cut changes nothing about that.
  lemma PreparedDecisionsStorable(p: Records.Parsed, raw: string)
    ensures Records.DecisionsStorable(Records.KeptDecisions(Prepared(p, raw).decisions))
        <==> Records.DecisionsStorable(NormalizeDecisions(p.decisions))
  {
    var ns := NormalizeDecisions(p.decisions);
    DecisionsAreNormalized(p.decisions);
    forall n | n in ns
      ensures NormalizeDecision(n).Some?
      ensures Records.DecisionStorable(NormalizeDecision(n).value) <==> Records.DecisionStorable(n)
    {
      var d :| d in p.decisions && NormalizeDecision(d) == Some(n);
      Records.DecisionCutsOnce(d);
    }
    hide NormalizeDecision, NormalizeDecisions, NormalizeMentions, TicketMentions, FindAll, Records.DecisionStorable;
    NormalizedAreKept(ns);
    var ks := Records.KeptDecisions(ns);
    forall i | 0 <= i < |ns| ensures Records.DecisionStorable(ks[i]) <==> Records.DecisionStorable(ns[i]) {
      assert ns[i] in ns;
    }
  }

  // Every ticket key that stands in the note's text, up to 200 characters long, is among the
  // mentions that the store keeps, unless the note already has 40.
  lemma TextTicketsAreKept(p: Records.Parsed, raw: string, i: nat, k: nat)
    requires IsOccurrence(raw, i, k) && k - i <= MAX_ENTITY_VALUE
    requires |NormalizeMentions(p.mentions + TicketMentions(FindAll(raw, 0))).out| < MAX_ENTITY_MENTIONS
    ensures exists u :: UpperOf(u, raw[i..k]) && ("ticket", u) in Keys(NormalizeMentions(Prepared(p, raw).mentions).out)
  {
    var m := raw[i..k];
    KeysAreSpelled(m);
    assert UpperOf(MapChars(UpperChar, m), m);
    ScanFindsAll(raw, 0, i, k);
    TicketMentionKey(m);
    FoundIsMentioned(FindAll(raw, 0), m);
    hide NormalizeMentions, NormalizeDecisions, NormalizeEntityMention, FindAll, TicketMention, IsTicketKey, MapChars;
    var all := p.mentions + TicketMentions(FindAll(raw, 0));
    BatchLosesNothingBelowCap(all);
    assert FallbackMention(m) in all;
    var x :| 0 <= x < |all| && all[x] == FallbackMention(m);
    assert Represented(all[x], NormalizeMentions(all).out);
    DoubleNormalizationKeepsKeys(all);
  }

  lemma {:induction false} DecisionsAreFirst(ds: seq<Decision>)
    ensures var kept := Records.KeptDecisions(ds);
            NormalizeDecisions(ds) == if |kept| > 20 then kept[..20] else kept
  {
    if ds != [] {
      hide NormalizeDecision;
      DecisionsAreFirst(ds[..|ds| - 1]);
    }
  }

  // Preparing displaces nothing of the parsed note: its own mentions stay the first ones, its first
  // 20 decisions with text are kept, and nothing else of it changes.
  lemma PreparedKeepsParsed(p: Records.Parsed, raw: string)
    ensures ToMentions(NormalizeMentions(p.mentions).out) <= Prepared(p, raw).mentions
    ensures var kept := Records.KeptDecisions(p.decisions);
            Prepared(p, raw).decisions == if |kept| > 20 then kept[..20] else kept
    ensures Prepared(p, raw) == p.(mentions := Prepared(p, raw).mentions, decisions := Prepared(p, raw).decisions)
  {
    BatchGrows(p.mentions, TicketMentions(FindAll(raw, 0)));
    DecisionsAreFirst(p.decisions);
    hide NormalizeMentions, NormalizeDecisions, FindAll, TicketMentions, Records.KeptDecisions;
  }

  // ---- Nothing but tickets of the text is added ----

  lemma {:induction false} CutOfAscii(s: string, max: nat)
    requires forall i :: 0 <= i < |s| ==> IsAlnum(s[i]) || s[i] == '-'
    ensures Cut(s, max) == if |s| <= max then s else s[..max]
  {
    if s != "" && max > 0 {
      CutOfAscii(s[1..], max - 1);
      assert |s| > max ==> s[..max] == [s[0]] + s[1..][..max - 1];
      assert s == [s[0]] + s[1..];
    }
  }

  // The text of a ticket that is stored: its first 200 characters.
  function Front(m: string): string {
    if |m| <= 200 then m else m[..200]
  }

  // What a mention made for a ticket of the text says, if it says anything.
  lemma TicketSays(m: string, r: Record)
    requires IsTicketKey(m) && Says(FallbackMention(m), r)
    ensures r.typ == "ticket" && UpperOf(r.normalized, Front(m))
  {
    hide IsTicketKey, NormalizeSpace, NormalizeType, Cut, Blank, TrimSpace, ToLower, UpperOf, SpellsKey, Front, MapChars;
    FrontIsCut(m);
    TicketIsAType();
    assert r.typ == NormalizeType("ticket") by { TypeIsLower("ticket"); }
  }

  lemma FrontIsCut(m: string)
    requires IsTicketKey(m)
    ensures !Blank(m) && Cut(NormalizeSpace(m), 200) == Front(m) && NormalizeSpace(Front(m)) == Front(m)
  {
    CutOfAscii(m, 200);
    KeyHasNoSpace(m);
    assert IsWord(Front(m));
    WordNormalizesToItself(m);
    WordNormalizesToItself(Front(m));
    hide NormalizeSpace, Cut, IsTicketKey;
  }

  lemma {:induction false} MentionsAreOfTickets(found: seq<string>)
    requires forall m :: m in found ==> IsTicketKey(m)
    ensures forall x :: x in TicketMentions(found) ==> exists m :: m in found && x == FallbackMention(m)
  {
    if found != [] {
      var n := |found| - 1;
      MentionsAreOfTickets(found[..n]);
      TicketMentionIs(found[n]);
      hide TicketMention, FallbackMention, IsTicketKey;
      assert found == found[..n] + [found[n]];
      forall x | x in TicketMentions(found) ensures exists m :: m in found && x == FallbackMention(m) {
        if x in TicketMentions(found[..n]) {
          var m :| m in found[..n] && x == FallbackMention(m);
          assert m in found;
        } else {
          assert x in TicketMention(found[n]);
        }
      }
    }
  }

  lemma TicketMentionIs(m: string)
    requires IsTicketKey(m)
    ensures TicketMention(m) == [FallbackMention(m)]
  {
    KeyHasNoSpace(m);
    WordNormalizesToItself(m);
    hide IsTicketKey, NormalizeSpace;
  }

  // Every key that the prepared note is stored under is one of the note's own, or the first 200
  // characters of a ticket key that stands in the text, in upper case.
  lemma PreparedAddsTextTickets(p: Records.Parsed, raw: string, key: MentionKey)
    requires key in Keys(NormalizeMentions(Prepared(p, raw).mentions).out)
    ensures || key in Keys(NormalizeMentions(p.mentions).out)
            || (key.0 == "ticket" && exists m :: Occurs(raw, m) && UpperOf(key.1, Front(m)))
  {
    hide *;
    var found := FindAll(raw, 0);
    var all := p.mentions + TicketMentions(found);
    PreparedKeysAreOnce(p, raw);
    ScanFindsKeys(raw, 0);
    MentionsAreOfTickets(found);
    var r := KeyHasRecord(all, key);
    var i := RecordHasMention(all, r);
    if i < |p.mentions| {
      OwnKeysStay(p.mentions, TicketMentions(found), i, r);
    } else {
      assert all[i] == TicketMentions(found)[i - |p.mentions|];
      assert all[i] in TicketMentions(found);
      var m :| m in found && all[i] == FallbackMention(m);
      TicketSays(m, r);
    }
  }

  lemma PreparedKeysAreOnce(p: Records.Parsed, raw: string)
    ensures Keys(NormalizeMentions(Prepared(p, raw).mentions).out)
         == Keys(NormalizeMentions(p.mentions + TicketMentions(FindAll(raw, 0))).out)
  {
    DoubleNormalizationKeepsKeys(p.mentions + TicketMentions(FindAll(raw, 0)));
    hide NormalizeMentions, NormalizeDecisions, FindAll, TicketMentions;
  }

  lemma KeyHasRecord(ms: seq<Mention>, key: MentionKey) returns (r: Record)
    requires key in Keys(NormalizeMentions(ms).out)
    ensures r in NormalizeMentions(ms).out && key == (r.typ, r.normalized)
  {
    hide NormalizeMentions;
    var i :| 0 <= i < |Keys(NormalizeMentions(ms).out)| && Keys(NormalizeMentions(ms).out)[i] == key;
    r := NormalizeMentions(ms).out[i];
  }

  lemma RecordHasMention(ms: seq<Mention>, r: Record) returns (i: nat)
    requires r in NormalizeMentions(ms).out
    ensures i < |ms| && Says(ms[i], r)
  {
    BatchKeepsFirst(ms);
    hide NormalizeMentions, Says, NotSaidBefore;
    i :| 0 <= i < |ms| && Says(ms[i], r) && NotSaidBefore(ms, i, Key(r));
  }

  // A key that one of the first mentions says is stored for them already, as far as the cap allows
  // it to be stored at all.
  lemma OwnKeysStay(ms: seq<Mention>, more: seq<Mention>, i: nat, r: Record)
    requires i < |ms| && Says(ms[i], r) && r in NormalizeMentions(ms + more).out
    ensures (r.typ, r.normalized) in Keys(NormalizeMentions(ms).out)
  {
    var own := NormalizeMentions(ms).out;
    BatchGrows(ms, more);
    BatchIsWellFormed(ms);
    BatchIsWellFormed(ms + more);
    MentionSaysItsRecord(ms[i], r);
    if |own| < MAX_ENTITY_MENTIONS {
      BatchLosesNothingBelowCap(ms);
      hide NormalizeMentions, Says, NormalizeEntityMention;
      assert Represented(ms[i], own);
    } else {
      hide NormalizeMentions, Says, NormalizeEntityMention;
      assert own == NormalizeMentions(ms + more).out;
      var k :| 0 <= k < |own| && own[k] == r;
      assert Keys(own)[k] == Key(r);
    }
  }
}
