// internal/models/entity_normalization.go, with its cuts by bytes.
module Entities {
  import opened Options
  import opened Text

  const MAX_ENTITY_MENTIONS := 40
  const MAX_ENTITY_VALUE := 200
  const MAX_ENTITY_CONTEXT := 500
  const MAX_DECISION_TEXT := 1000
  const MAX_DECISION_TOPIC := 120
  const ENTITY_TYPES := {"ticket", "project", "service", "component", "repository", "document", "other"}

  datatype Mention = Mention(typ: string, value: string, rawValue: string, displayValue: string, context: string)
  datatype Record = Record(typ: string, rawValue: string, normalized: string, display: string, context: string)
  datatype Decision = Decision(text: string, linkedPerson: string, topic: string)

  // What the loop over mentions has built so far.
  datatype Batch = Batch(out: seq<Record>, skipped: nat)

  type MentionKey = (string, string)

  function UpperChar(c: char): char {
    if 'a' <= c <= 'z' then (c as int - 32) as char else c
  }

  predicate IsLetter(c: char) { 'A' <= c <= 'Z' || 'a' <= c <= 'z' }
  predicate IsDigit(c: char) { '0' <= c <= '9' }

  // A letter, one or more letters or digits, a hyphen, one or more digits.
  predicate IsTicketKey(v: string) {
    exists k :: 2 <= k < |v| - 1 && v[k] == '-' && IsLetter(v[0])
      && (forall i :: 1 <= i < k ==> IsLetter(v[i]) || IsDigit(v[i]))
      && (forall i :: k < i < |v| ==> IsDigit(v[i]))
  }

  function NormalizeTicketKey(s: string): Option<string> {
    var v := NormalizeSpace(s);
    if IsTicketKey(v) then Some(MapChars(UpperChar, v)) else None
  }

  function NormalizeType(t: string): string {
    ToLower(TrimSpace(t))
  }

  // The value under which a mention of type typ is stored, or None if it has none.
  function NormalizedValue(typ: string, raw: string): Option<string> {
    if typ == "ticket" then NormalizeTicketKey(raw)
    else
      var v := ToLower(NormalizeSpace(raw));
      if v == "" then None else Some(v)
  }

  function NormalizeEntityMention(m: Mention): Option<Record> {
    var typ := NormalizeType(m.typ);
    if typ !in ENTITY_TYPES then None
    else
      var spaced := NormalizeSpace(FirstNonBlank([m.rawValue, m.value, m.displayValue]));
      if spaced == "" then None
      else
        var raw := Cut(spaced, MAX_ENTITY_VALUE);
        var display := Cut(NormalizeSpace(FirstNonBlank([m.displayValue, m.value, raw])), MAX_ENTITY_VALUE);
        match NormalizedValue(typ, raw)
        case None => None
        case Some(value) =>
          Some(Record(typ, raw, value, if typ == "ticket" then value else display,
                      Cut(NormalizeSpace(m.context), MAX_ENTITY_CONTEXT)))
  }

  function NormalizeDecision(d: Decision): Option<Decision> {
    var text := NormalizeSpace(d.text);
    if text == "" then None
    else Some(Decision(Cut(text, MAX_DECISION_TEXT), NormalizeSpace(d.linkedPerson),
                       Cut(NormalizeSpace(d.topic), MAX_DECISION_TOPIC)))
  }

  function Key(r: Record): MentionKey { (r.typ, r.normalized) }

  function Keys(rs: seq<Record>): (ks: seq<MentionKey>)
    ensures |ks| == |rs| && forall i :: 0 <= i < |rs| ==> ks[i] == Key(rs[i])
  {
    seq(|rs|, i requires 0 <= i < |rs| => Key(rs[i]))
  }

  function Take(b: Batch, m: Mention): Batch {
    if |b.out| >= MAX_ENTITY_MENTIONS then b.(skipped := b.skipped + 1)
    else
      match NormalizeEntityMention(m)
      case None => b.(skipped := b.skipped + 1)
      case Some(r) => if Key(r) in Keys(b.out) then b else b.(out := b.out + [r])
  }

  function NormalizeMentions(ms: seq<Mention>): Batch {
    if ms == [] then Batch([], 0)
    else Take(NormalizeMentions(ms[..|ms| - 1]), ms[|ms| - 1])
  }

  // The loop of NormalizeEntityMentionsForNote, with its set of seen keys.
  method NormalizeEntityMentionsForNote(ms: seq<Mention>) returns (out: seq<Record>, skipped: nat)
    ensures Batch(out, skipped) == NormalizeMentions(ms)
  {
    out, skipped := [], 0;
    var seen: set<MentionKey> := {};
    for i := 0 to |ms|
      invariant Batch(out, skipped) == NormalizeMentions(ms[..i])
      invariant forall k :: k in seen <==> k in Keys(out)
    {
      assert ms[..i + 1][..i] == ms[..i];
      if |out| >= MAX_ENTITY_MENTIONS {
        skipped := skipped + 1;
        continue;
      }
      var rec := NormalizeEntityMention(ms[i]);
      if rec == None {
        skipped := skipped + 1;
        continue;
      }
      var key := Key(rec.value);
      if key in seen {
        continue;
      }
      seen := seen + {key};
      assert Keys(out + [rec.value]) == Keys(out) + [key];
      out := out + [rec.value];
    }
    assert ms[..|ms|] == ms;
  }

  // What the service hands to the store: the record turned back into a mention.
  function ToMention(r: Record): Mention {
    Mention(r.typ, r.normalized, r.rawValue, r.display, r.context)
  }

  function ToMentions(rs: seq<Record>): (ms: seq<Mention>)
    ensures |ms| == |rs| && forall i :: 0 <= i < |rs| ==> ms[i] == ToMention(rs[i])
  {
    seq(|rs|, i requires 0 <= i < |rs| => ToMention(rs[i]))
  }

  predicate Distinct(ks: seq<MentionKey>) {
    forall i, j :: 0 <= i < j < |ks| ==> ks[i] != ks[j]
  }

  // r is what some mention normalises to.
  ghost predicate Normalized(r: Record) {
    exists m :: NormalizeEntityMention(m) == Some(r)
  }

  lemma ValueIgnoresSpacing(typ: string, raw: string)
    ensures NormalizedValue(typ, NormalizeSpace(raw)) == NormalizedValue(typ, raw)
  {
    hide NormalizeSpace, IsTicketKey;
    NormalizeSpaceIsStable(raw);
  }

  // The raw value of a record fits the cut and starts with a letter of the mention.
  lemma RawValueShape(spaced: string, raw: string)
    requires spaced != "" && !IsSpace(spaced[0])
    requires raw == Cut(spaced, MAX_ENTITY_VALUE)
    ensures !Blank(raw) && TrimSpace(raw) != ""
    ensures NormalizeSpace(raw) != ""
    ensures Cut(NormalizeSpace(raw), MAX_ENTITY_VALUE) == NormalizeSpace(raw)
  {
    CutFits(spaced, MAX_ENTITY_VALUE);
    assert raw[0] == spaced[0];
    TrimSpaceShape(raw);
    NormalizeSpaceShape(raw);
    NormalizeSpaceIsShort(raw);
    CutFits(NormalizeSpace(raw), MAX_ENTITY_VALUE);
  }

  // The stored key of a mention survives the 200-byte cut and a second normalisation, although
  // the cut can leave a trailing space, which the second pass removes, or a part of a character.
  lemma RecordKeepsKey(m: Mention, r: Record)
    requires NormalizeEntityMention(m) == Some(r)
    ensures NormalizeEntityMention(ToMention(r)).Some?
    ensures Key(NormalizeEntityMention(ToMention(r)).value) == Key(r)
  {
    var raw := r.rawValue;
    var spaced := NormalizeSpace(FirstNonBlank([m.rawValue, m.value, m.displayValue]));
    NormalizeSpaceShape(FirstNonBlank([m.rawValue, m.value, m.displayValue]));
    RawValueShape(spaced, raw);
    ValueIgnoresSpacing(r.typ, raw);
    TypeIsStable(m.typ);
    var m2 := ToMention(r);
    assert FirstNonBlank([m2.rawValue, m2.value, m2.displayValue]) == raw;
    hide NormalizeSpace, NormalizedValue, Cut, TrimSpace, Blank, NormalizeType, FirstNonBlank;
  }

  lemma TypeIsStable(t: string)
    ensures NormalizeType(NormalizeType(t)) == NormalizeType(t)
  {
    var u := TrimSpace(t);
    TrimSpaceShape(t);
    LowerKeepsSpaces();
    LowerIsStable(u);
    assert u != "" ==> ToLower(u)[0] == LowerChar(u[0]);
    TrimmedStays(ToLower(u));
  }

  ghost predicate WellFormed(rs: seq<Record>) {
    && |rs| <= MAX_ENTITY_MENTIONS
    && Distinct(Keys(rs))
    && forall i :: 0 <= i < |rs| ==> Normalized(rs[i])
  }

  lemma AppendKeepsWellFormed(rs: seq<Record>, r: Record)
    requires WellFormed(rs) && |rs| < MAX_ENTITY_MENTIONS
    requires Normalized(r) && Key(r) !in Keys(rs)
    ensures WellFormed(rs + [r])
  {
    hide Normalized;
    assert Keys(rs + [r]) == Keys(rs) + [Key(r)];
  }

  lemma TakeKeepsWellFormed(b: Batch, m: Mention)
    requires WellFormed(b.out)
    ensures WellFormed(Take(b, m).out)
    ensures |b.out| <= |Take(b, m).out| && b.out == Take(b, m).out[..|b.out|]
  {
    match NormalizeEntityMention(m)
    case None =>
    case Some(r) =>
      assert Normalized(r);
      hide Normalized, WellFormed, NormalizeEntityMention;
      if |b.out| < MAX_ENTITY_MENTIONS && Key(r) !in Keys(b.out) {
        AppendKeepsWellFormed(b.out, r);
      }
  }

  // The batch holds at most 40 normalised records with pairwise distinct keys.
  lemma {:induction false} BatchIsWellFormed(ms: seq<Mention>)
    ensures WellFormed(NormalizeMentions(ms).out)
  {
    if ms != [] {
      BatchIsWellFormed(ms[..|ms| - 1]);
      TakeKeepsWellFormed(NormalizeMentions(ms[..|ms| - 1]), ms[|ms| - 1]);
    }
  }

  ghost predicate Represented(m: Mention, rs: seq<Record>) {
    NormalizeEntityMention(m).Some? ==> Key(NormalizeEntityMention(m).value) in Keys(rs)
  }

  // Below the cap no mention that has a key is lost.
  lemma {:induction false} BatchLosesNothingBelowCap(ms: seq<Mention>)
    requires |NormalizeMentions(ms).out| < MAX_ENTITY_MENTIONS
    ensures forall i :: 0 <= i < |ms| ==> Represented(ms[i], NormalizeMentions(ms).out)
  {
    hide Normalized, NormalizeEntityMention;
    if ms != [] {
      var n := |ms| - 1;
      var before, after := NormalizeMentions(ms[..n]), NormalizeMentions(ms);
      BatchIsWellFormed(ms[..n]);
      TakeKeepsWellFormed(before, ms[n]);
      BatchLosesNothingBelowCap(ms[..n]);
      KeysGrow(before.out, after.out);
      assert forall i :: 0 <= i < n ==> ms[i] == ms[..n][i];
      TakeRepresents(before, ms[n]);
    }
  }

  lemma TakeRepresents(b: Batch, m: Mention)
    requires |b.out| < MAX_ENTITY_MENTIONS
    ensures Represented(m, Take(b, m).out)
  {
    match NormalizeEntityMention(m)
    case None =>
    case Some(r) => assert Keys(b.out + [r])[|b.out|] == Key(r);
  }

  lemma KeysGrow(rs: seq<Record>, more: seq<Record>)
    requires |rs| <= |more| && rs == more[..|rs|]
    ensures forall k :: k in Keys(rs) ==> k in Keys(more)
  {
    forall k | k in Keys(rs) ensures k in Keys(more) {
      var i :| 0 <= i < |rs| && Keys(rs)[i] == k;
      assert Keys(more)[i] == k;
    }
  }

  lemma TakeAgain(b: Batch, r: Record)
    requires Normalized(r) && |b.out| < MAX_ENTITY_MENTIONS
    requires Key(r) !in Keys(b.out)
    ensures Take(b, ToMention(r)).skipped == b.skipped
    ensures Keys(Take(b, ToMention(r)).out) == Keys(b.out) + [Key(r)]
  {
    var m :| NormalizeEntityMention(m) == Some(r);
    hide Take, NormalizeEntityMention, Normalized;
    TakeNormalized(b, m, r);
  }

  lemma TakeNormalized(b: Batch, m: Mention, r: Record)
    requires NormalizeEntityMention(m) == Some(r) && |b.out| < MAX_ENTITY_MENTIONS
    requires Key(r) !in Keys(b.out)
    ensures Take(b, ToMention(r)).skipped == b.skipped
    ensures Keys(Take(b, ToMention(r)).out) == Keys(b.out) + [Key(r)]
  {
    hide NormalizeEntityMention;
    RecordKeepsKey(m, r);
  }

  lemma DropLastKey(rs: seq<Record>)
    requires rs != [] && WellFormed(rs)
    ensures WellFormed(rs[..|rs| - 1]) && Normalized(rs[|rs| - 1])
    ensures Keys(rs) == Keys(rs[..|rs| - 1]) + [Key(rs[|rs| - 1])]
    ensures Key(rs[|rs| - 1]) !in Keys(rs[..|rs| - 1])
  {
    hide Normalized;
    var n := |rs| - 1;
    assert Keys(rs[..n]) == Keys(rs)[..n];
    assert forall i :: 0 <= i < n ==> Keys(rs)[i] != Keys(rs)[n];
  }

  lemma {:induction false} RenormalizePrefix(rs: seq<Record>)
    requires WellFormed(rs)
    ensures NormalizeMentions(ToMentions(rs)).skipped == 0
    ensures Keys(NormalizeMentions(ToMentions(rs)).out) == Keys(rs)
  {
    if rs != [] {
      var n := |rs| - 1;
      DropLastKey(rs);
      RenormalizePrefix(rs[..n]);
      assert ToMentions(rs)[..n] == ToMentions(rs[..n]);
      var b := NormalizeMentions(ToMentions(rs[..n]));
      assert |b.out| == |Keys(b.out)| == n;
      TakeAgain(b, rs[n]);
    }
  }

  // Normalising in the store what the service already normalised skips nothing and
  // gives the same list of keys, at most 40 and pairwise distinct, so the insert
  // never meets its ON CONFLICT clause.
  lemma DoubleNormalizationKeepsKeys(ms: seq<Mention>)
    ensures var once := NormalizeMentions(ms);
            var twice := NormalizeMentions(ToMentions(once.out));
            twice.skipped == 0 && Keys(twice.out) == Keys(once.out)
            && |twice.out| <= MAX_ENTITY_MENTIONS && Distinct(Keys(twice.out))
  {
    BatchIsWellFormed(ms);
    RenormalizePrefix(NormalizeMentions(ms).out);
    BatchIsWellFormed(ToMentions(NormalizeMentions(ms).out));
  }

  // ---- What a mention says ----

  function FirstSaid(a: string, b: string, c: string): string {
    if !Blank(a) then a else if !Blank(b) then b else c
  }

  // ASCII letters and digits, by their codes.
  predicate LetterCode(c: char) { 65 <= c as int <= 90 || 97 <= c as int <= 122 }
  predicate DigitCode(c: char) { 48 <= c as int <= 57 }

  // A letter, one or more letters or digits, a hyphen, one or more digits.
  ghost predicate SpellsKey(v: string) {
    exists d :: 2 <= d < |v| - 1 && v[d] == '-' && LetterCode(v[0])
      && (forall i :: 1 <= i < d ==> LetterCode(v[i]) || DigitCode(v[i])) && (forall i :: d < i < |v| ==> DigitCode(v[i]))
  }

  // u is v with its ASCII letters in upper case.
  predicate UpperOf(u: string, v: string) {
    |u| == |v| && forall i :: 0 <= i < |v| ==> u[i] as int == v[i] as int - if 97 <= v[i] as int <= 122 then 32 else 0
  }

  lemma KeysAreSpelled(v: string)
    ensures IsTicketKey(v) <==> SpellsKey(v)
    ensures forall u :: UpperOf(u, v) <==> u == MapChars(UpperChar, v)
  {
    forall u | UpperOf(u, v) ensures u == MapChars(UpperChar, v) {
      assert forall i :: 0 <= i < |v| ==> u[i] == UpperChar(v[i]);
    }
  }

  // The record that a mention yields, told from its fields: the raw value, or what stands in for
  // it, with single spaces and cut to 200 bytes; its key in upper or lower case; what is displayed,
  // or what stands in for that; and the context, cut to 500 bytes. A ticket is displayed as its key.
  ghost predicate Says(m: Mention, r: Record) {
    var source := FirstSaid(m.rawValue, m.value, m.displayValue);
    && !Blank(source)
    && r.typ == ToLower(TrimSpace(m.typ))
    && r.typ in {"project", "service", "component", "repository", "document", "ticket", "other"}
    && r.rawValue == Cut(NormalizeSpace(source), 200)
    && r.context == Cut(NormalizeSpace(m.context), 500)
    && if r.typ == "ticket"
       then SpellsKey(NormalizeSpace(r.rawValue)) && UpperOf(r.normalized, NormalizeSpace(r.rawValue))
            && r.display == r.normalized
       else r.normalized == ToLower(NormalizeSpace(r.rawValue))
            && r.display == Cut(NormalizeSpace(FirstSaid(m.displayValue, m.value, r.rawValue)), 200)
  }

  lemma FirstNonBlankIs(a: string, b: string, c: string)
    ensures FirstNonBlank([a, b, c]) == if Blank(FirstSaid(a, b, c)) then "" else FirstSaid(a, b, c)
  {
    TrimSpaceShape(a);
    TrimSpaceShape(b);
    TrimSpaceShape(c);
    hide TrimSpace, Blank;
    assert [a, b, c][1..] == [b, c] && [b, c][1..] == [c];
    assert FirstNonBlank([c]) == if Blank(c) then "" else c;
    assert FirstNonBlank([b, c]) == if !Blank(b) then b else FirstNonBlank([c]);
  }

  // A mention yields exactly the record that it says, and none if it says none.
  lemma MentionSaysItsRecord(m: Mention, r: Record)
    ensures NormalizeEntityMention(m) == Some(r) <==> Says(m, r)
  {
    var source := FirstSaid(m.rawValue, m.value, m.displayValue);
    var raw := Cut(NormalizeSpace(source), 200);
    FirstNonBlankIs(m.rawValue, m.value, m.displayValue);
    NormalizeSpaceShape(source);
    NormalizeSpaceShape("");
    if !Blank(source) {
      RawValueShape(NormalizeSpace(source), raw);
      FirstNonBlankIs(m.displayValue, m.value, raw);
      LowerIsLonger(NormalizeSpace(raw));
    }
    hide Blank, NormalizeSpace, Cut, TrimSpace, IsTicketKey, FirstSaid, FirstNonBlank;
    RecordIs(m, r, source, raw);
  }

  lemma LowerIsLonger(s: string)
    ensures ToLower(s) == "" <==> s == ""
  {
  }

  lemma RecordIs(m: Mention, r: Record, source: string, raw: string)
    requires source == FirstSaid(m.rawValue, m.value, m.displayValue) && raw == Cut(NormalizeSpace(source), 200)
    requires FirstNonBlank([m.rawValue, m.value, m.displayValue]) == if Blank(source) then "" else source
    requires NormalizeSpace("") == ""
    requires !Blank(source) ==>
               && NormalizeSpace(source) != "" && NormalizeSpace(raw) != "" && ToLower(NormalizeSpace(raw)) != ""
               && !Blank(FirstSaid(m.displayValue, m.value, raw))
               && FirstNonBlank([m.displayValue, m.value, raw]) == FirstSaid(m.displayValue, m.value, raw)
    ensures NormalizeEntityMention(m) == Some(r) <==> Says(m, r)
  {
    KeysAreSpelled(NormalizeSpace(raw));
    hide Blank, NormalizeSpace, Cut, TrimSpace, IsTicketKey, FirstSaid, FirstNonBlank, ToLower, SpellsKey, UpperOf, MapChars;
  }

  // Record r of the batch is that of the first mention with its key.
  ghost predicate FirstSaying(ms: seq<Mention>, r: Record) {
    exists i :: 0 <= i < |ms| && Says(ms[i], r) && NotSaidBefore(ms, i, Key(r))
  }

  ghost predicate NotSaidBefore(ms: seq<Mention>, i: nat, k: MentionKey)
    requires i <= |ms|
  {
    forall j, other :: 0 <= j < i && Says(ms[j], other) ==> Key(other) != k
  }

  // Each record of the batch is the one that the first mention with its key says; below the cap
  // every mention that says a record has its key in the batch.
  lemma {:induction false} BatchKeepsFirst(ms: seq<Mention>)
    ensures forall r :: r in NormalizeMentions(ms).out ==> FirstSaying(ms, r)
  {
    if ms != [] {
      var n := |ms| - 1;
      var before := NormalizeMentions(ms[..n]);
      BatchKeepsFirst(ms[..n]);
      assert ms == ms[..n] + [ms[n]];
      hide Says, NormalizeEntityMention, FirstSaying, Key;
      forall r | r in before.out ensures FirstSaying(ms, r) {
        FirstSayingStays(ms[..n], ms[n], r);
      }
      if |before.out| < MAX_ENTITY_MENTIONS && NormalizeEntityMention(ms[n]).Some?
         && Key(NormalizeEntityMention(ms[n]).value) !in Keys(before.out) {
        BatchLosesNothingBelowCap(ms[..n]);
        NewKeyIsFirst(ms[..n], before.out, ms[n], NormalizeEntityMention(ms[n]).value);
      }
    }
  }

  lemma FirstSayingStays(ms: seq<Mention>, m: Mention, r: Record)
    requires FirstSaying(ms, r)
    ensures FirstSaying(ms + [m], r)
  {
    hide Says, Key;
    var i :| 0 <= i < |ms| && Says(ms[i], r) && NotSaidBefore(ms, i, Key(r));
    assert (ms + [m])[i] == ms[i];
    assert forall j :: 0 <= j < i ==> (ms + [m])[j] == ms[j];
    assert NotSaidBefore(ms + [m], i, Key(r));
  }

  lemma NewKeyIsFirst(ms: seq<Mention>, out: seq<Record>, m: Mention, r: Record)
    requires forall i :: 0 <= i < |ms| ==> Represented(ms[i], out)
    requires NormalizeEntityMention(m) == Some(r) && Key(r) !in Keys(out)
    ensures FirstSaying(ms + [m], r)
  {
    MentionSaysItsRecord(m, r);
    hide Says, Key, NormalizeEntityMention, Keys;
    var more := ms + [m];
    assert more[|ms|] == m;
    forall j, other | 0 <= j < |ms| && Says(more[j], other) ensures Key(other) != Key(r) {
      assert more[j] == ms[j];
      MentionSaysItsRecord(ms[j], other);
      assert Represented(ms[j], out);
    }
    assert NotSaidBefore(more, |ms|, Key(r));
  }

  // The mentions that say nothing, or come when 40 records are taken.
  ghost function Skipped(ms: seq<Mention>): set<int> {
    set i | 0 <= i < |ms| && (|NormalizeMentions(ms[..i]).out| >= 40 || forall r :: !Says(ms[i], r))
  }

  // The number of skipped mentions that is logged is that of these.
  lemma {:induction false} SkippedExactly(ms: seq<Mention>)
    ensures NormalizeMentions(ms).skipped == |Skipped(ms)|
  {
    if ms == [] {
      assert Skipped(ms) == {};
    } else {
      hide Says, NormalizeEntityMention, Skipped, Take;
      var n := |ms| - 1;
      assert ms == ms[..n] + [ms[n]];
      SkippedExactly(ms[..n]);
      OneMoreSkipped(ms[..n], ms[n]);
      TakeSkips(NormalizeMentions(ms[..n]), ms[n]);
    }
  }

  lemma TakeSkips(b: Batch, m: Mention)
    ensures Take(b, m).skipped == b.skipped + if |b.out| >= 40 || NormalizeEntityMention(m).None? then 1 else 0
  {
    hide NormalizeEntityMention, Key;
  }

  lemma OneMoreSkipped(ms: seq<Mention>, m: Mention)
    ensures |ms| !in Skipped(ms)
    ensures Skipped(ms + [m])
         == Skipped(ms) + (if |NormalizeMentions(ms).out| >= 40 || NormalizeEntityMention(m).None? then {|ms|} else {})
  {
    hide Says, NormalizeEntityMention, NormalizeMentions;
    var more := ms + [m];
    forall r ensures NormalizeEntityMention(m) == Some(r) <==> Says(m, r) {
      MentionSaysItsRecord(m, r);
    }
    assert NormalizeEntityMention(m).None? <==> forall r :: !Says(m, r) by {
      if NormalizeEntityMention(m).Some? { assert Says(m, NormalizeEntityMention(m).value); }
    }
    assert more[|ms|] == m && more[..|ms|] == ms;
    forall i | 0 <= i < |ms| ensures more[i] == ms[i] && more[..i] == ms[..i] {
    }
  }

  // More mentions displace none.
  lemma {:induction false} BatchGrows(ms: seq<Mention>, more: seq<Mention>)
    ensures NormalizeMentions(ms).out <= NormalizeMentions(ms + more).out
    decreases |more|
  {
    if more == [] {
      assert ms + more == ms;
    } else {
      var n := |more| - 1;
      BatchGrows(ms, more[..n]);
      assert (ms + more)[..|ms + more| - 1] == ms + more[..n];
      BatchIsWellFormed(ms + more[..n]);
      TakeKeepsWellFormed(NormalizeMentions(ms + more[..n]), more[n]);
    }
  }

  // ---- The second pass ----

  // A record as a second pass leaves it: without the space that a cut can leave at the end.
  function Respaced(r: Record): Record {
    r.(rawValue := NormalizeSpace(r.rawValue), context := NormalizeSpace(r.context),
       display := if r.typ == "ticket" then r.normalized else NormalizeSpace(r.display))
  }

  // Text that was cut to max bytes is not cut again once its spaces are normalized.
  lemma RespacedFits(s: string, max: nat)
    ensures Cut(NormalizeSpace(Cut(s, max)), max) == NormalizeSpace(Cut(s, max))
    ensures NormalizeSpace(NormalizeSpace(Cut(s, max))) == NormalizeSpace(Cut(s, max))
  {
    CutFits(s, max);
    NormalizeSpaceIsShort(Cut(s, max));
    CutFits(NormalizeSpace(Cut(s, max)), max);
    NormalizeSpaceIsStable(Cut(s, max));
  }

  lemma SaidIsShown(s: string)
    requires !Blank(s)
    ensures !Blank(Cut(NormalizeSpace(s), 200))
  {
    NormalizeSpaceShape(s);
    RawValueShape(NormalizeSpace(s), Cut(NormalizeSpace(s), 200));
  }

  lemma SecondPassTrims(m: Mention, r: Record)
    requires NormalizeEntityMention(m) == Some(r)
    ensures NormalizeEntityMention(ToMention(r)) == Some(Respaced(r))
  {
    hide NormalizeEntityMention, NormalizeSpace, Cut, TrimSpace, Blank, ToLower, SpellsKey, UpperOf, NormalizeType;
    MentionSaysItsRecord(m, r);
    var source := FirstSaid(m.rawValue, m.value, m.displayValue);
    var shown := FirstSaid(m.displayValue, m.value, r.rawValue);
    SaidIsShown(source);
    if r.typ != "ticket" {
      SaidIsShown(shown);
    }
    RespacedFits(NormalizeSpace(source), 200);
    RespacedFits(NormalizeSpace(shown), 200);
    RespacedFits(NormalizeSpace(m.context), 500);
    StoredTypeIsStable(m.typ);
    MentionSaysItsRecord(ToMention(r), Respaced(r));
  }

  lemma StoredTypeIsStable(t: string)
    ensures ToLower(TrimSpace(ToLower(TrimSpace(t)))) == ToLower(TrimSpace(t))
  {
    TypeIsStable(t);
    hide TrimSpace, ToLower;
  }

  lemma TakeRespaced(b: Batch, r: Record)
    requires Normalized(r) && |b.out| < MAX_ENTITY_MENTIONS && Key(r) !in Keys(b.out)
    ensures Take(b, ToMention(r)).out == b.out + [Respaced(r)]
  {
    var m :| NormalizeEntityMention(m) == Some(r);
    SecondPassTrims(m, r);
    hide NormalizeEntityMention, NormalizeSpace, Keys;
  }

  ghost predicate AreRespaced(twice: seq<Record>, once: seq<Record>) {
    |twice| == |once| && forall i :: 0 <= i < |once| ==> twice[i] == Respaced(once[i])
  }

  lemma {:induction false} RespacedPrefix(rs: seq<Record>)
    requires WellFormed(rs)
    ensures AreRespaced(NormalizeMentions(ToMentions(rs)).out, rs)
  {
    if rs != [] {
      hide Normalized, Take, WellFormed, Respaced, Key, Keys, AreRespaced, ToMention;
      var n := |rs| - 1;
      DropLastKey(rs);
      RespacedPrefix(rs[..n]);
      RenormalizePrefix(rs[..n]);
      assert ToMentions(rs)[..n] == ToMentions(rs[..n]);
      KeysAreAsMany(NormalizeMentions(ToMentions(rs[..n])).out, rs[..n]);
      TakeRespaced(NormalizeMentions(ToMentions(rs[..n])), rs[n]);
      OneMoreRespaced(NormalizeMentions(ToMentions(rs[..n])).out, rs);
    }
  }

  lemma KeysAreAsMany(a: seq<Record>, b: seq<Record>)
    requires Keys(a) == Keys(b)
    ensures |a| == |b|
  {
    assert |Keys(a)| == |a| && |Keys(b)| == |b|;
  }

  lemma OneMoreRespaced(twice: seq<Record>, once: seq<Record>)
    requires once != [] && AreRespaced(twice, once[..|once| - 1])
    ensures AreRespaced(twice + [Respaced(once[|once| - 1])], once)
  {
  }

  // What the service normalized reaches the tables record by record, its columns unchanged but for
  // a space at the end of a cut.
  lemma SecondPassKeepsRecords(ms: seq<Mention>)
    ensures var once, twice := NormalizeMentions(ms).out, NormalizeMentions(ToMentions(NormalizeMentions(ms).out)).out;
            AreRespaced(twice, once)
  {
    BatchIsWellFormed(ms);
    RespacedPrefix(NormalizeMentions(ms).out);
  }
}
