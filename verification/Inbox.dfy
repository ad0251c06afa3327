// The Telegram inbox: the telegram_updates table and the transactions on it
// (internal/adapters/store/store.go), and the handler that claims an update, acts and marks it
// (internal/adapters/bot/client.go, internal/services/service.go).
module Inbox {
  import opened Options
  import opened Text
  import opened People
  import Queue

  // telegram_update_id, and telegram_chat_id with telegram_message_id.
  datatype Ident = Ident(update: int, chat: int, message: int)

  datatype Status = Processing | Processed | Failed
  datatype Row = Row(status: Status, startedAt: Instant, attempts: nat)

  const MAX_ATTEMPTS := 3

  // ---- Reading a message ----

  // What a message asks for. Finish carries a valid action id, BadFinish an invalid one.
  datatype Command = Capture(raw: string) | NowNote(raw: string) | Finish(action: int) | BadFinish(blank: bool) | Answer

  function IndexOf(s: string, c: char): (i: nat)
    ensures i <= |s|
  {
    if s == "" || s[0] == c then 0 else 1 + IndexOf(s[1..], c)
  }

  function SplitCommand(text: string): (string, string) {
    if text == "" || text[0] != '/' then ("", text)
    else
      var k := IndexOf(text, ' ');
      var head := ToLower(text[..k]);
      (head[..IndexOf(head, '@')], if k < |text| then TrimSpace(text[k + 1..]) else "")
  }

  // strconv.ParseInt(s, 10, 64).
  function ParseInt(s: string): Option<int> {
    var signed := s != "" && (s[0] == '-' || s[0] == '+');
    var body := if signed then s[1..] else s;
    if body == "" then None
    else
      match Digits(body)
      case None => None
      case Some(n) =>
        var v: int := if s[0] == '-' then -(n as int) else n as int;
        if -0x8000_0000_0000_0000 <= v < 0x8000_0000_0000_0000 then Some(v) else None
  }

  function CommandOf(text: string): Command {
    var (cmd, arg) := SplitCommand(TrimSpace(text));
    if cmd == "" then Capture(TrimSpace(text))
    else if cmd == "/note" && TrimSpace(arg) != "" then Capture(arg)
    else if cmd == "/now" then NowNote(arg)
    else if cmd == "/done" then
      match ParseInt(TrimSpace(arg))
      case None => BadFinish(TrimSpace(arg) == "")
      case Some(id) => Finish(id)
    else Answer
  }

  predicate Carries(c: Command) { !c.BadFinish? && !c.Answer? }

  // Blank messages and account links never reach the table.
  predicate Recorded(text: string) {
    var (cmd, arg) := SplitCommand(TrimSpace(text));
    TrimSpace(text) != "" && !(cmd == "/start" && "link_" <= arg)
  }

  // ---- What a text asks for ----

  // The word, in any case of its letters.
  predicate Spells(s: string, word: string) {
    |s| == |word| && forall i :: 0 <= i < |s| ==>
      s[i] == word[i] || ('a' <= word[i] <= 'z' && s[i] as int - 'A' as int == word[i] as int - 'a' as int)
  }

  // name and bot make up the first part of t, up to the first space, and arg is what follows it.
  predicate CallsAs(t: string, word: string, name: string, bot: string, arg: string) {
    && Spells(name, word) && ' ' !in bot && (bot == "" || bot[0] == '@')
    && (t == name + bot + " " + arg || (t == name + bot && arg == ""))
  }

  // The text is the command word, perhaps addressed to a bot, with an argument or none.
  ghost predicate Calls(text: string, word: string, arg: string) {
    exists name, bot :: CallsAs(TrimSpace(text), word, name, bot, arg)
  }

  predicate Plain(text: string) {
    !Blank(text) && !("/" <= TrimSpace(text))
  }

  // A decimal integer of 64 bits, perhaps with a sign and leading zeros.
  ghost predicate Writes(s: string, n: int) {
    && -0x8000_0000_0000_0000 <= n <= 0x7FFF_FFFF_FFFF_FFFF
    && ((n >= 0 && Numeral(s, n))
        || (n >= 0 && s != "" && s[0] == '+' && Numeral(s[1..], n))
        || (n <= 0 && s != "" && s[0] == '-' && Numeral(s[1..], -n)))
  }

  // What the text asks for: a plain text and /note with one ask for a note, /now for a note that is
  // claimed at once, and /done with a number for that action; any other text asks for nothing.
  ghost predicate AsksNote(text: string, raw: string) {
    (Plain(text) && raw == TrimSpace(text)) || exists arg :: Calls(text, "/note", arg) && !Blank(arg) && raw == TrimSpace(arg)
  }

  ghost predicate AsksNow(text: string, raw: string) {
    exists arg :: Calls(text, "/now", arg) && raw == TrimSpace(arg)
  }

  ghost predicate AsksDone(text: string, n: int) {
    exists arg :: Calls(text, "/done", arg) && Writes(TrimSpace(arg), n)
  }

  // An account link.
  ghost predicate AsksLink(text: string) {
    exists arg :: Calls(text, "/start", arg) && "link_" <= TrimSpace(arg)
  }

  ghost predicate AsksNothing(text: string) {
    (forall raw :: !AsksNote(text, raw) && !AsksNow(text, raw)) && forall n :: !AsksDone(text, n)
  }

  // The command that a text stands for; /done without a number is told from other texts.
  ghost predicate AsksFor(text: string, c: Command) {
    match c
    case Capture(raw) => AsksNote(text, raw)
    case NowNote(raw) => AsksNow(text, raw)
    case Finish(n) => AsksDone(text, n)
    case BadFinish(blank) => AsksNothing(text) && exists arg :: Calls(text, "/done", arg) && blank == Blank(arg)
    case Answer => AsksNothing(text) && forall arg :: !Calls(text, "/done", arg)
  }

  ghost predicate IsCommandWord(word: string) {
    |word| > 1 && word[0] == '/' && forall i :: 1 <= i < |word| ==> 'a' <= word[i] <= 'z'
  }

  lemma {:induction false} IndexOfIs(s: string, c: char, i: nat)
    requires i <= |s| && (i < |s| ==> s[i] == c) && c !in s[..i]
    ensures IndexOf(s, c) == i
  {
    if i > 0 {
      assert s[0] == s[..i][0] != c;
      assert s[1..][..i - 1] == s[..i][1..];
      IndexOfIs(s[1..], c, i - 1);
    }
  }

  lemma {:induction false} IndexOfMeans(s: string, c: char)
    ensures c !in s[..IndexOf(s, c)] && (IndexOf(s, c) < |s| ==> s[IndexOf(s, c)] == c)
  {
    if s != "" && s[0] != c {
      IndexOfMeans(s[1..], c);
      assert s[..IndexOf(s, c)] == [s[0]] + s[1..][..IndexOf(s[1..], c)];
    }
  }

  lemma SpellsMeansLower(s: string, word: string)
    requires IsCommandWord(word)
    ensures Spells(s, word) <==> ToLower(s) == word
    ensures Spells(s, word) ==> ' ' !in s && '@' !in s && s[0] == '/'
  {
    if |s| == |word| {
      forall i | 0 <= i < |s|
        ensures LowerChar(s[i]) == word[i]
            <==> s[i] == word[i] || ('a' <= word[i] <= 'z' && s[i] as int - 'A' as int == word[i] as int - 'a' as int)
      {
      }
      assert ToLower(s) == word <==> forall i :: 0 <= i < |s| ==> LowerChar(s[i]) == word[i];
    }
    hide LowerChar;
  }

  // A command is split where it says.
  lemma CallSplits(t: string, word: string, name: string, bot: string, arg: string)
    requires IsCommandWord(word) && CallsAs(t, word, name, bot, arg)
    ensures SplitCommand(t) == (word, TrimSpace(arg))
  {
    SpellsMeansLower(name, word);
    var head := name + bot;
    var k := |head|;
    assert t[..k] == head;
    IndexOfIs(t, ' ', k);
    assert k < |t| ==> t[k + 1..] == arg;
    assert ToLower(head)[..|name|] == ToLower(name) == word;
    assert bot != "" ==> ToLower(head)[|name|] == LowerChar('@') == '@';
    assert '@' !in word;
    IndexOfIs(ToLower(head), '@', |name|);
    assert TrimSpace("") == "";
    hide LowerChar, TrimSpace, IndexOf, Spells;
    assert t[0] == head[0] == name[0];
  }

  lemma LowerKeepsAt(c: char)
    ensures LowerChar(c) == '@' <==> c == '@'
  {
  }

  // And what it is split into, it says.
  lemma SplitCalls(t: string, word: string) returns (name: string, bot: string, arg: string)
    requires IsCommandWord(word) && SplitCommand(t).0 == word
    ensures CallsAs(t, word, name, bot, arg) && SplitCommand(t).1 == TrimSpace(arg)
  {
    hide LowerChar, TrimSpace, IndexOf, Spells;
    var k := IndexOf(t, ' ');
    var head := ToLower(t[..k]);
    var j := IndexOf(head, '@');
    IndexOfMeans(t, ' ');
    IndexOfMeans(head, '@');
    name, bot, arg := t[..j], t[j..k], if k < |t| then t[k + 1..] else "";
    TrimmedStays("");
    assert ToLower(name) == head[..j] == word;
    SpellsMeansLower(name, word);
    if bot != "" {
      assert bot[0] == t[j] && head[j] == LowerChar(t[j]);
      LowerKeepsAt(t[j]);
    }
    assert forall c :: c in bot ==> c in t[..k];
    assert t[..k] == name + bot;
    if k < |t| { assert t == t[..k] + [t[k]] + t[k + 1..]; } else { assert t == t[..k]; }
  }

  lemma CallsExactly(text: string, word: string)
    requires IsCommandWord(word)
    ensures SplitCommand(TrimSpace(text)).0 == word <==> exists arg :: Calls(text, word, arg)
    ensures forall arg :: Calls(text, word, arg) ==> SplitCommand(TrimSpace(text)) == (word, TrimSpace(arg))
  {
    hide SplitCommand, CallsAs, TrimSpace;
    var t := TrimSpace(text);
    forall arg | Calls(text, word, arg) ensures SplitCommand(t) == (word, TrimSpace(arg)) {
      var name, bot :| CallsAs(t, word, name, bot, arg);
      CallSplits(t, word, name, bot, arg);
    }
    if SplitCommand(t).0 == word {
      var name, bot, arg := SplitCalls(t, word);
      assert Calls(text, word, arg);
    }
  }

  lemma ParseIntMeans(s: string, n: int)
    ensures ParseInt(s) == Some(n) <==> Writes(s, n)
  {
    hide Digits, Numeral;
    var signed := s != "" && (s[0] == '-' || s[0] == '+');
    var body := if signed then s[1..] else s;
    var m: nat := if n < 0 then -n else n;
    DigitsMeans(body, m);
    if signed { DigitsMeans(s, m); }
  }

  lemma CommandWords()
    ensures IsCommandWord("/note") && IsCommandWord("/now") && IsCommandWord("/done") && IsCommandWord("/start")
  {
  }

  // The command is the one that the text asks for.
  lemma CommandIsAskedFor(text: string)
    requires !Blank(text)
    ensures forall raw :: CommandOf(text) == Capture(raw) <==> AsksNote(text, raw)
    ensures forall raw :: CommandOf(text) == NowNote(raw) <==> AsksNow(text, raw)
    ensures forall n :: CommandOf(text) == Finish(n) <==> AsksDone(text, n)
  {
    TrimSpaceShape(text);
    CommandWords();
    CallsExactly(text, "/note");
    CallsExactly(text, "/now");
    CallsExactly(text, "/done");
    PlainIsSplit(text);
    hide SplitCommand, Calls, Plain, TrimSpace, Blank, ParseInt, Writes;
    forall s, n ensures ParseInt(s) == Some(n) <==> Writes(s, n) {
      ParseIntMeans(s, n);
    }
    var (cmd, arg) := SplitCommand(TrimSpace(text));
    forall s ensures TrimSpace(s) == "" <==> Blank(s) { TrimSpaceShape(s); }
    forall s ensures TrimSpace(TrimSpace(s)) == TrimSpace(s) { TrimSpaceShape(s); }
  }

  lemma CommandIsTheOneAskedFor(text: string)
    requires !Blank(text)
    ensures forall c :: AsksFor(text, c) <==> c == CommandOf(text)
  {
    CommandIsAskedFor(text);
    hide AsksNote, AsksNow, AsksDone;
    DoneWithoutNumber(text);
    hide CommandOf;
    assert AsksFor(text, CommandOf(text));
    forall c | AsksFor(text, c) ensures c == CommandOf(text) {
      match c
      case Capture(raw) =>
      case NowNote(raw) =>
      case Finish(n) =>
      case BadFinish(blank) =>
      case Answer =>
    }
  }

  // Of the texts that ask for nothing, /done is told by its argument.
  lemma DoneWithoutNumber(text: string)
    ensures forall arg :: Calls(text, "/done", arg) ==> CommandOf(text).Finish? || CommandOf(text) == BadFinish(Blank(arg))
    ensures CommandOf(text).BadFinish? ==> exists arg :: Calls(text, "/done", arg)
  {
    CommandWords();
    CallsExactly(text, "/done");
    hide SplitCommand, Calls, TrimSpace, Blank, ParseInt;
    forall s ensures (TrimSpace(s) == "" <==> Blank(s)) && TrimSpace(TrimSpace(s)) == TrimSpace(s) { TrimSpaceShape(s); }
  }

  // What reaches the table is a text that is not blank and no account link.
  lemma RecordedExactly(text: string)
    ensures Recorded(text) <==> !Blank(text) && !AsksLink(text)
  {
    TrimSpaceShape(text);
    CommandWords();
    CallsExactly(text, "/start");
    hide SplitCommand, Calls, TrimSpace, Blank;
    forall s ensures TrimSpace(TrimSpace(s)) == TrimSpace(s) { TrimSpaceShape(s); }
  }

  lemma PlainIsSplit(text: string)
    requires !Blank(text) && TrimSpace(text) != ""
    ensures SplitCommand(TrimSpace(text)).0 == "" <==> Plain(text)
  {
    var t := TrimSpace(text);
    if t[0] == '/' {
      var k := IndexOf(t, ' ');
      assert k > 0 && ToLower(t[..k])[0] == LowerChar('/') == '/';
    }
    hide TrimSpace, LowerChar, Blank;
  }

  // ---- The table ----

  // WHERE telegram_update_id = ... OR (telegram_chat_id = ... AND telegram_message_id = ...).
  predicate Matches(a: Ident, b: Ident) {
    a.update == b.update || (a.chat == b.chat && a.message == b.message)
  }

  predicate Reclaimable(r: Row, stale: Instant, now: Instant) {
    && r.attempts < MAX_ATTEMPTS
    && (r.status == Failed || (r.status == Processing && r.startedAt < Queue.StaleBefore(stale, now)))
  }

  predicate Empty(m: Ident) {
    m.update == 0 && (m.chat == 0 || m.message == 0)
  }

  function Reclaim(rows: map<Ident, Row>, m: Ident, stale: Instant, now: Instant): map<Ident, Row> {
    map k | k in rows :: if Matches(k, m) && Reclaimable(rows[k], stale, now)
                         then Row(Processing, now, rows[k].attempts + 1) else rows[k]
  }

  // ClaimTelegramUpdate: the rows, and whether the update is now claimed. The insert meets one of
  // the two unique indexes exactly if some row matches.
  function Claim(rows: map<Ident, Row>, m: Ident, stale: Instant, now: Instant): (map<Ident, Row>, bool) {
    if Empty(m) then (rows, false)
    else if forall k :: k in rows ==> !Matches(k, m) then (rows[m := Row(Processing, now, 1)], true)
    else (Reclaim(rows, m, stale, now), exists k :: k in rows && Matches(k, m) && Reclaimable(rows[k], stale, now))
  }

  predicate Held(rows: map<Ident, Row>, k: Ident, m: Ident, token: Instant) {
    k in rows && Matches(k, m) && rows[k].status == Processing && rows[k].startedAt == token
  }

  // The guarded update to status; None if it affects no row.
  function Mark(rows: map<Ident, Row>, m: Ident, token: Instant, status: Status): Option<map<Ident, Row>> {
    if exists k :: k in rows && Held(rows, k, m, token)
    then Some(map k | k in rows :: if Held(rows, k, m, token) then rows[k].(status := status) else rows[k])
    else None
  }

  // ---- State ----

  // Before the command's own work, before the mark of a command without one, after a committed
  // /now, and before MarkTelegramUpdateFailed.
  datatype Point = Acting | Marking | Enriching | Failing
  datatype Holder = Holder(ident: Ident, token: Instant, command: Command, user: int, point: Point)

  // One committed mutation.
  datatype Effect = NoteAdded(ident: Ident, note: int) | ActionDone(ident: Ident, action: int)

  // captured are the notes that came in through the web API, without an update.
  datatype State = State(rows: map<Ident, Row>, notes: map<int, Queue.Note>, nextNote: int, actions: map<int, Action>,
                         holders: map<int, Holder>, nextHolder: int, clock: Instant,
                         seen: map<Ident, string>, log: seq<Effect>, starts: map<Ident, nat>, captured: set<int>)

  const INIT := State(map[], map[], 1, map[], map[], 0, 0, map[], [], map[], {})

  // How a database call ends: as it should, without effect, or with its effect but an error.
  datatype Luck = Fine | Lost | Unknown

  datatype Step =
    | Deliver(ident: Ident, user: int, text: string, stale: Instant, now: Instant, luck: Luck)
    | Act(holder: int, now: Instant, luck: Luck)
    | Crash(holder: int)
      // SaveRawAPINote
    | Record(user: int, raw: string, now: Instant)
      // anything else that changes actions
    | Others(actions: map<int, Action>)

  // The two have the same id, or the same chat and message number.
  predicate OneUpdate(a: Ident, b: Ident) {
    a.update == b.update || (a.chat == b.chat && a.message == b.message)
  }

  // Each key of an update determines the other key and the text, and claims see increasing instants.
  predicate Coherent(s: State, step: Step) {
    step.Deliver? ==>
      && s.clock < step.now
      && forall k :: k in s.seen && OneUpdate(k, step.ident) ==> k == step.ident && s.seen[k] == step.text
  }

  function MoveTo(s: State, h: int, point: Point): State
    requires h in s.holders
  {
    s.(holders := s.holders[h := s.holders[h].(point := point)])
  }

  function Drop(s: State, h: int): State {
    s.(holders := s.holders - {h})
  }

  function Starts(starts: map<Ident, nat>, m: Ident): nat {
    if m in starts then starts[m] else 0
  }

  // The delivery reaches the handler, which claims the update or stops.
  function DeliverStep(s: State, m: Ident, user: int, text: string, stale: Instant, now: Instant, luck: Luck): State {
    var s0 := s.(seen := s.seen[m := text], clock := now);
    if !Recorded(text) || luck == Lost then s0
    else
      var (rows1, claimed) := Claim(s.rows, m, stale, now);
      var s1 := s0.(rows := rows1, starts := if claimed then s.starts[m := Starts(s.starts, m) + 1] else s.starts);
      if claimed && luck == Fine
      then s1.(holders := s.holders[s.nextHolder := Holder(m, now, CommandOf(text), user, Acting)],
               nextHolder := s.nextHolder + 1)
      else s1
  }

  // The transaction of the command: its mutation together with the mark, or nothing.
  function Transact(s: State, c: Holder, now: Instant): Option<State> {
    match Mark(s.rows, c.ident, c.token, Processed)
    case None => None
    case Some(rows1) =>
      match c.command
      case Capture(raw) =>
        Some(s.(rows := rows1, notes := s.notes[s.nextNote := Queue.RawNote(c.user, raw, now)], nextNote := s.nextNote + 1,
                log := s.log + [NoteAdded(c.ident, s.nextNote)]))
      case NowNote(raw) =>
        Some(s.(rows := rows1, notes := s.notes[s.nextNote := Queue.OwnNote(c.user, raw, now)], nextNote := s.nextNote + 1,
                log := s.log + [NoteAdded(c.ident, s.nextNote)]))
      case Finish(id) =>
        if id in s.actions && s.actions[id].user == c.user && s.actions[id].open
        then Some(s.(rows := rows1, actions := s.actions[id := s.actions[id].(open := false)],
                     log := s.log + [ActionDone(c.ident, id)]))
        else None
      case BadFinish(_) => Some(s.(rows := rows1))
      case Answer => Some(s.(rows := rows1))
  }

  // Where the handler goes after a transaction that it believes committed.
  function AfterCommit(s: State, h: int): State
    requires h in s.holders
  {
    var c := s.holders[h];
    if c.point == Acting && c.command.NowNote? then MoveTo(s, h, Enriching)
    else if c.point == Acting && c.command == BadFinish(true) then MoveTo(s, h, Marking)
    else Drop(s, h)
  }

  // Both the command's own transaction and the handler's final MarkTelegramUpdateProcessed.
  function CommitStep(s: State, h: int, now: Instant, luck: Luck): State
    requires h in s.holders
  {
    match Transact(s, s.holders[h], now)
    case None => MoveTo(s, h, Failing)
    case Some(s1) =>
      if luck == Lost then MoveTo(s, h, Failing)
      else if luck == Unknown then s1.(holders := s.holders[h := s.holders[h].(point := Failing)])
      else AfterCommit(s1.(holders := s.holders), h)
  }

  function FailStep(s: State, h: int, luck: Luck): State
    requires h in s.holders
  {
    var c := s.holders[h];
    var marked := Mark(s.rows, c.ident, c.token, Failed);
    Drop(if luck == Lost || marked.None? then s else s.(rows := marked.value), h)
  }

  function ActStep(s: State, h: int, now: Instant, luck: Luck): State
    requires h in s.holders
  {
    var c := s.holders[h];
    match c.point
    case Acting =>
      if c.command.Answer? then MoveTo(s, h, if luck == Fine then Marking else Failing) else CommitStep(s, h, now, luck)
    case Marking => CommitStep(s, h, now, luck)
    case Enriching => if luck == Fine then Drop(s, h) else MoveTo(s, h, Failing)
    case Failing => FailStep(s, h, luck)
  }

  function RecordStep(s: State, user: int, raw: string, now: Instant): State {
    s.(notes := s.notes[s.nextNote := Queue.RawNote(user, raw, now)], nextNote := s.nextNote + 1,
       captured := s.captured + {s.nextNote})
  }

  function Next(s: State, step: Step): State {
    match step
    case Deliver(m, user, text, stale, now, luck) => DeliverStep(s, m, user, text, stale, now, luck)
    case Act(h, now, luck) => if h in s.holders then ActStep(s, h, now, luck) else s
    case Crash(h) => Drop(s, h)
    case Record(user, raw, now) => RecordStep(s, user, raw, now)
    case Others(actions) => s.(actions := actions)
  }

  function Run(s: State, steps: seq<Step>): State {
    if steps == [] then s else Next(Run(s, steps[..|steps| - 1]), steps[|steps| - 1])
  }

  predicate Legal(s: State, steps: seq<Step>) {
    steps == [] || (Legal(s, steps[..|steps| - 1]) && Coherent(Run(s, steps[..|steps| - 1]), steps[|steps| - 1]))
  }

  // ---- Invariant ----

  function EffectsOf(log: seq<Effect>, m: Ident): seq<Effect> {
    if log == [] then []
    else EffectsOf(log[..|log| - 1], m) + if log[|log| - 1].ident == m then [log[|log| - 1]] else []
  }

  predicate IsProcessed(s: State, m: Ident) {
    m in s.rows && s.rows[m].status == Processed
  }

  // The effect is the one the message asks for.
  predicate EffectFits(s: State, e: Effect, c: Command) {
    match c
    case Capture(raw) =>
      && e.NoteAdded? && e.note in s.notes
      && s.notes[e.note] == Queue.RawNote(s.notes[e.note].user, raw, s.notes[e.note].createdAt)
    case NowNote(raw) =>
      && e.NoteAdded? && e.note in s.notes
      && s.notes[e.note] == Queue.OwnNote(s.notes[e.note].user, raw, s.notes[e.note].createdAt)
    case Finish(id) => e == ActionDone(e.ident, id)
    case BadFinish(_) => false
    case Answer => false
  }

  ghost predicate SeenOk(s: State) {
    && (forall a, b :: a in s.seen && b in s.seen && OneUpdate(a, b) ==> a == b)
    && (forall k :: k in s.rows ==> k in s.seen && Recorded(s.seen[k]))
  }

  ghost predicate RowsOk(s: State) {
    && (forall k :: k in s.rows ==> 1 <= s.rows[k].attempts <= MAX_ATTEMPTS && s.rows[k].startedAt <= s.clock)
    && (forall k :: Starts(s.starts, k) == if k in s.rows then s.rows[k].attempts else 0)
  }

  ghost predicate HolderOk(s: State, c: Holder) {
    && c.ident in s.rows && c.ident in s.seen && c.token <= s.rows[c.ident].startedAt
    && c.command == CommandOf(s.seen[c.ident])
    && (c.point == Marking ==> !Carries(c.command))
  }

  ghost predicate HoldersOk(s: State) {
    forall h :: h in s.holders ==> h < s.nextHolder && HolderOk(s, s.holders[h])
  }

  // The number of committed mutations of one update, and what they did.
  ghost predicate EffectsOk(s: State, m: Ident) {
    var es := EffectsOf(s.log, m);
    && |es| == (if IsProcessed(s, m) && m in s.seen && Carries(CommandOf(s.seen[m])) then 1 else 0)
    && forall e :: e in es ==> EffectFits(s, e, CommandOf(s.seen[m]))
  }

  ghost predicate LogOk(s: State) {
    forall m :: EffectsOk(s, m)
  }

  // Every one of these notes was added by exactly one logged effect.
  ghost predicate NotesLogged(ids: set<int>, nextNote: int, log: seq<Effect>) {
    && (forall n :: n in ids ==> n < nextNote)
    && (forall i :: 0 <= i < |log| && log[i].NoteAdded? ==> log[i].note in ids)
    && (forall n :: n in ids ==> exists i :: 0 <= i < |log| && Adds(log[i], n))
    && (forall i, j :: 0 <= i < j < |log| && log[i].NoteAdded? && log[j].NoteAdded? ==> log[i].note != log[j].note)
  }

  ghost predicate NotesOk(s: State) {
    s.captured <= s.notes.Keys && (forall n :: n in s.captured ==> n < s.nextNote)
    && NotesLogged(s.notes.Keys - s.captured, s.nextNote, s.log)
  }

  predicate Adds(e: Effect, n: int) { e.NoteAdded? && e.note == n }

  ghost predicate InboxInv(s: State) {
    SeenOk(s) && RowsOk(s) && HoldersOk(s) && LogOk(s) && NotesOk(s)
  }

  // ---- One update, one row ----

  // No other row shares a key with m.
  ghost predicate Alone(rows: map<Ident, Row>, m: Ident) {
    forall k :: k in rows && OneUpdate(k, m) ==> k == m
  }

  // The timeout without its fraction of a second.
  function WholeSeconds(stale: Instant): Instant {
    if stale >= 0 then stale - stale % 1_000_000 else stale + (-stale) % 1_000_000
  }

  // A new update, or one that has failed, or whose claim is older than the timeout, with attempts
  // left; an update without its keys is never claimed.
  predicate MayClaim(rows: map<Ident, Row>, m: Ident, stale: Instant, now: Instant) {
    && (m.update != 0 || (m.chat != 0 && m.message != 0))
    && (m in rows ==>
          rows[m].attempts < 3
          && match rows[m].status
             case Processing => rows[m].startedAt + WholeSeconds(stale) < now
             case Processed => false
             case Failed => true)
  }

  lemma MayClaimMeans(rows: map<Ident, Row>, m: Ident, stale: Instant, now: Instant)
    ensures MayClaim(rows, m, stale, now) <==> !Empty(m) && (m in rows ==> Reclaimable(rows[m], stale, now))
  {
    StaleBeforeMeans(stale, now);
    hide WholeSeconds, Queue.StaleBefore;
  }

  lemma StaleBeforeMeans(stale: Instant, now: Instant)
    ensures Queue.StaleBefore(stale, now) == now - WholeSeconds(stale)
  {
  }

  lemma MarkIsOneRow(rows: map<Ident, Row>, m: Ident, token: Instant, status: Status)
    requires Alone(rows, m) && m in rows
    ensures Mark(rows, m, token, status)
         == if rows[m].status == Processing && rows[m].startedAt == token
            then Some(rows[m := rows[m].(status := status)]) else None
  {
    if Held(rows, m, m, token) {
      assert Mark(rows, m, token, status).value == rows[m := rows[m].(status := status)];
    }
  }

  lemma ClaimIsOneRow(rows: map<Ident, Row>, m: Ident, stale: Instant, now: Instant)
    requires Alone(rows, m)
    ensures var (rows1, claimed) := Claim(rows, m, stale, now);
            && claimed == MayClaim(rows, m, stale, now)
            && rows1 == if !claimed then rows
                        else rows[m := Row(Processing, now, if m in rows then rows[m].attempts + 1 else 1)]
  {
    MayClaimMeans(rows, m, stale, now);
    hide Reclaimable, Empty, MayClaim;
    if m in rows {
      assert Matches(m, m);
      var reclaimed := Reclaim(rows, m, stale, now);
      if Reclaimable(rows[m], stale, now) {
        assert reclaimed == rows[m := Row(Processing, now, rows[m].attempts + 1)];
      } else {
        assert reclaimed == rows;
      }
    }
  }

  // ---- Steps ----

  ghost predicate Keeps(s: State, s1: State) {
    && (forall k :: k in s.seen ==> k in s1.seen && s1.seen[k] == s.seen[k])
    && (forall n :: n in s.notes ==> n in s1.notes && s1.notes[n] == s.notes[n])
  }

  // Nothing is logged, and the updates that become processed carry no mutation.
  lemma QuietLog(s: State, s1: State)
    requires SeenOk(s) && LogOk(s) && Keeps(s, s1) && s1.log == s.log
    requires forall k :: IsProcessed(s, k) ==> IsProcessed(s1, k)
    requires forall k :: IsProcessed(s1, k) && !IsProcessed(s, k) ==> k in s1.seen && !Carries(CommandOf(s1.seen[k]))
    ensures LogOk(s1)
  {
    hide CommandOf, Recorded;
    forall m ensures EffectsOk(s1, m) {
      assert EffectsOk(s, m);
    }
  }

  // One mutation of m is logged, and m becomes processed.
  lemma OneMoreEffect(s: State, s1: State, m: Ident, e: Effect)
    requires SeenOk(s) && LogOk(s) && Keeps(s, s1) && s1.seen == s.seen && s1.log == s.log + [e] && e.ident == m
    requires m in s.seen && !IsProcessed(s, m) && IsProcessed(s1, m) && Carries(CommandOf(s.seen[m]))
    requires forall k :: k != m ==> IsProcessed(s1, k) == IsProcessed(s, k)
    requires EffectFits(s1, e, CommandOf(s.seen[m]))
    ensures LogOk(s1)
  {
    hide CommandOf, Recorded;
    forall k ensures EffectsOk(s1, k) {
      assert EffectsOk(s, k);
      assert s1.log[..|s1.log| - 1] == s.log;
    }
  }

  // The state after a delivery that does not claim, and after one that does.
  function Noted(s: State, m: Ident, text: string, now: Instant): State {
    s.(seen := s.seen[m := text], clock := now)
  }

  function ClaimedBy(s: State, m: Ident, text: string, now: Instant): State {
    Noted(s, m, text, now).(rows := s.rows[m := Row(Processing, now, if m in s.rows then s.rows[m].attempts + 1 else 1)],
                            starts := s.starts[m := Starts(s.starts, m) + 1])
  }

  function StartHandler(s: State, m: Ident, text: string, now: Instant, user: int): State {
    s.(holders := s.holders[s.nextHolder := Holder(m, now, CommandOf(text), user, Acting)], nextHolder := s.nextHolder + 1)
  }

  lemma DeliverCases(s: State, m: Ident, user: int, text: string, stale: Instant, now: Instant, luck: Luck)
    requires SeenOk(s) && Coherent(s, Deliver(m, user, text, stale, now, luck))
    ensures DeliverStep(s, m, user, text, stale, now, luck)
         == if !Recorded(text) || luck == Lost || !MayClaim(s.rows, m, stale, now) then Noted(s, m, text, now)
            else if luck == Unknown then ClaimedBy(s, m, text, now)
            else StartHandler(ClaimedBy(s, m, text, now), m, text, now, user)
  {
    hide CommandOf, Recorded, Claim, MayClaim, SeenOk, Coherent, Alone;
    SeenIsAlone(s, m, user, text, stale, now, luck);
    ClaimIsOneRow(s.rows, m, stale, now);
  }

  lemma SeenIsAlone(s: State, m: Ident, user: int, text: string, stale: Instant, now: Instant, luck: Luck)
    requires SeenOk(s) && Coherent(s, Deliver(m, user, text, stale, now, luck))
    ensures Alone(s.rows, m)
  {
  }

  lemma NotedKeepsInv(s: State, m: Ident, text: string, now: Instant)
    requires InboxInv(s) && s.clock < now && forall k :: k in s.seen && OneUpdate(k, m) ==> k == m && s.seen[k] == text
    ensures InboxInv(Noted(s, m, text, now))
  {
    hide CommandOf, Recorded, LogOk, NotesOk;
    assert Matches(m, m);
    QuietLog(s, Noted(s, m, text, now));
    NotesOkMeans(s, Noted(s, m, text, now));
  }

  lemma ClaimKeepsRows(s: State, m: Ident, text: string, now: Instant, stale: Instant)
    requires SeenOk(s) && RowsOk(s) && HoldersOk(s)
    requires s.clock < now && forall k :: k in s.seen && OneUpdate(k, m) ==> k == m && s.seen[k] == text
    requires MayClaim(s.rows, m, stale, now) && Recorded(text)
    ensures var s1 := ClaimedBy(s, m, text, now); SeenOk(s1) && RowsOk(s1) && HoldersOk(s1)
  {
    hide CommandOf, Recorded, WholeSeconds;
    assert Matches(m, m);
    ClaimKeepsHolders(s, m, text, now);
    hide HoldersOk, HolderOk;
  }

  lemma ClaimKeepsHolders(s: State, m: Ident, text: string, now: Instant)
    requires HoldersOk(s) && RowsOk(s) && s.clock < now && (m in s.seen ==> s.seen[m] == text)
    ensures HoldersOk(ClaimedBy(s, m, text, now))
  {
    hide CommandOf;
  }

  lemma ClaimKeepsInv(s: State, m: Ident, text: string, now: Instant, stale: Instant)
    requires InboxInv(s) && s.clock < now && forall k :: k in s.seen && OneUpdate(k, m) ==> k == m && s.seen[k] == text
    requires MayClaim(s.rows, m, stale, now) && Recorded(text)
    ensures InboxInv(ClaimedBy(s, m, text, now))
  {
    hide CommandOf, Recorded, LogOk, NotesOk, WholeSeconds, RowsOk, HoldersOk, SeenOk;
    ClaimKeepsRows(s, m, text, now, stale);
    var s1 := ClaimedBy(s, m, text, now);
    assert Matches(m, m);
    QuietLog(s, s1);
    NotesOkMeans(s, s1);
  }

  lemma StartKeepsInv(s: State, m: Ident, text: string, now: Instant, user: int)
    requires InboxInv(s) && m in s.rows && m in s.seen && s.seen[m] == text && s.rows[m].startedAt == now
    ensures InboxInv(StartHandler(s, m, text, now, user))
  {
    hide CommandOf, Recorded, LogOk, NotesOk;
    var s1 := StartHandler(s, m, text, now, user);
    QuietLog(s, s1);
    NotesOkMeans(s, s1);
  }

  lemma ClaimedRow(s: State, m: Ident, text: string, now: Instant)
    ensures var s1 := ClaimedBy(s, m, text, now);
            m in s1.rows && m in s1.seen && s1.seen[m] == text && s1.rows[m].startedAt == now
  {
  }

  lemma DeliverKeepsInv(s: State, m: Ident, user: int, text: string, stale: Instant, now: Instant, luck: Luck)
    requires InboxInv(s) && Coherent(s, Deliver(m, user, text, stale, now, luck))
    ensures InboxInv(DeliverStep(s, m, user, text, stale, now, luck))
  {
    DeliverCases(s, m, user, text, stale, now, luck);
    hide InboxInv, DeliverStep, Noted, ClaimedBy, StartHandler, MayClaim, CommandOf, Recorded;
    NotedKeepsInv(s, m, text, now);
    if MayClaim(s.rows, m, stale, now) && Recorded(text) {
      ClaimKeepsInv(s, m, text, now, stale);
      ClaimedRow(s, m, text, now);
      StartKeepsInv(ClaimedBy(s, m, text, now), m, text, now, user);
    }
  }

  lemma NotesOkMeans(s: State, s1: State)
    requires NotesOk(s) && s1.notes == s.notes && s1.nextNote == s.nextNote && s1.log == s.log && s1.captured == s.captured
    ensures NotesOk(s1)
  {
  }

  // What a transaction does in a reachable state.
  lemma TransactEffect(s: State, h: int, now: Instant)
    requires InboxInv(s) && h in s.holders
    ensures var c := s.holders[h];
            Transact(s, c, now).Some? ==>
              var s1 := Transact(s, c, now).value;
              && s1 == s.(rows := s1.rows, notes := s1.notes, nextNote := s1.nextNote, actions := s1.actions, log := s1.log)
              && !IsProcessed(s, c.ident) && s1.rows == s.rows[c.ident := s.rows[c.ident].(status := Processed)]
              && InboxInv(s1)
  {
    var c := s.holders[h];
    assert HolderOk(s, c);
    MarkIsOneRow(s.rows, c.ident, c.token, Processed);
    TransactShape(s, c, now);
    hide Mark, Transact, CommandOf, Recorded, LogOk, NotesOk;
    if Transact(s, c, now).Some? {
      RowsAfterMark(s, Transact(s, c, now).value, c.ident);
      TransactLog(s, c, now, Transact(s, c, now).value);
    }
  }

  lemma TransactShape(s: State, c: Holder, now: Instant)
    ensures Transact(s, c, now).Some? ==>
              var s1 := Transact(s, c, now).value;
              && s1 == s.(rows := s1.rows, notes := s1.notes, nextNote := s1.nextNote, actions := s1.actions, log := s1.log)
              && Mark(s.rows, c.ident, c.token, Processed) == Some(s1.rows)
  {
    hide Mark;
  }

  lemma RowsAfterMark(s: State, s1: State, m: Ident)
    requires SeenOk(s) && RowsOk(s) && HoldersOk(s) && m in s.rows
    requires s1.rows == s.rows[m := s.rows[m].(status := Processed)]
    requires s1.seen == s.seen && s1.clock == s.clock && s1.starts == s.starts
    requires s1.holders == s.holders && s1.nextHolder == s.nextHolder
    ensures SeenOk(s1) && RowsOk(s1) && HoldersOk(s1)
  {
    hide CommandOf, Recorded;
    assert SeenOk(s1) by { hide RowsOk, HoldersOk; }
    assert RowsOk(s1) by { hide SeenOk, HoldersOk; }
    assert HoldersOk(s1) by { hide SeenOk, RowsOk; }
  }

  lemma TransactLog(s: State, c: Holder, now: Instant, s1: State)
    requires SeenOk(s) && LogOk(s) && NotesOk(s) && HolderOk(s, c)
    requires Transact(s, c, now) == Some(s1) && !IsProcessed(s, c.ident)
    requires s1.rows == s.rows[c.ident := s.rows[c.ident].(status := Processed)]
    ensures LogOk(s1) && NotesOk(s1)
  {
    hide Mark, CommandOf, Recorded, LogOk, SeenOk, NotesLogged;
    if c.command.Capture? || c.command.NowNote? {
      TransactAddsNote(s, c, now, s1);
      hide Transact;
      OneMoreEffect(s, s1, c.ident, NoteAdded(c.ident, s.nextNote));
      LogNewNote(s.notes.Keys - s.captured, s.nextNote, s.log, NoteAdded(c.ident, s.nextNote));
      assert s1.notes.Keys - s1.captured == s.notes.Keys - s.captured + {s.nextNote};
    } else if c.command.Finish? {
      var e := ActionDone(c.ident, c.command.action);
      assert s1.log == s.log + [e];
      hide Transact;
      OneMoreEffect(s, s1, c.ident, e);
      LogDone(s.notes.Keys - s.captured, s.nextNote, s.log, e);
    } else {
      QuietLog(s, s1);
    }
  }

  lemma TransactAddsNote(s: State, c: Holder, now: Instant, s1: State)
    requires NotesOk(s) && Transact(s, c, now) == Some(s1) && (c.command.Capture? || c.command.NowNote?)
    ensures s1.notes == s.notes[s.nextNote := if c.command.Capture? then Queue.RawNote(c.user, c.command.raw, now)
                                              else Queue.OwnNote(c.user, c.command.raw, now)]
    ensures s1.nextNote == s.nextNote + 1 && s1.log == s.log + [NoteAdded(c.ident, s.nextNote)] && s1.seen == s.seen
    ensures s1.notes.Keys == s.notes.Keys + {s.nextNote} && s.nextNote !in s.notes && s1.captured == s.captured
  {
    hide Mark;
    assert s.nextNote !in s.notes.Keys - s.captured;
  }

  lemma LogNewNote(ids: set<int>, next: int, log: seq<Effect>, e: Effect)
    requires NotesLogged(ids, next, log) && e.NoteAdded? && e.note == next
    ensures NotesLogged(ids + {next}, next + 1, log + [e])
  {
    var log1 := log + [e];
    assert Adds(log1[|log|], next);
    forall n | n in ids ensures exists i :: 0 <= i < |log1| && Adds(log1[i], n) {
      var i :| 0 <= i < |log| && Adds(log[i], n);
      assert log1[i] == log[i];
    }
  }

  lemma LogDone(ids: set<int>, next: int, log: seq<Effect>, e: Effect)
    requires NotesLogged(ids, next, log) && e.ActionDone?
    ensures NotesLogged(ids, next, log + [e])
  {
    var log1 := log + [e];
    forall n | n in ids ensures exists i :: 0 <= i < |log1| && Adds(log1[i], n) {
      var i :| 0 <= i < |log| && Adds(log[i], n);
      assert log1[i] == log[i];
    }
  }

  // Moving or removing a handler.
  lemma HandlerMoves(s: State, s1: State, h: int)
    requires InboxInv(s) && h in s.holders && s1 == s.(holders := s1.holders)
    requires s1.holders == s.holders - {h}
          || exists p :: s1.holders == s.holders[h := s.holders[h].(point := p)] && (p == Marking ==> !Carries(s.holders[h].command))
    ensures InboxInv(s1)
  {
    hide CommandOf, Recorded, LogOk, NotesOk;
    assert HolderOk(s, s.holders[h]);
    QuietLog(s, s1);
    NotesOkMeans(s, s1);
  }

  lemma FailKeepsInv(s: State, h: int, rows1: map<Ident, Row>)
    requires InboxInv(s) && h in s.holders
    requires Mark(s.rows, s.holders[h].ident, s.holders[h].token, Failed) == Some(rows1)
    ensures InboxInv(s.(rows := rows1))
    ensures forall k :: IsProcessed(s, k) ==> k in rows1 && rows1[k] == s.rows[k]
  {
    hide Mark, CommandOf, Recorded, LogOk, NotesOk;
    var c := s.holders[h];
    assert HolderOk(s, c);
    MarkIsOneRow(s.rows, c.ident, c.token, Failed);
    var s1 := s.(rows := rows1);
    RowsAfterFailing(s, s1, c.ident);
    hide SeenOk, RowsOk, HoldersOk;
    FailIsQuiet(s, s1);
    NotesOkMeans(s, s1);
  }

  lemma FailIsQuiet(s: State, s1: State)
    requires SeenOk(s) && LogOk(s) && s1 == s.(rows := s1.rows) && forall k :: IsProcessed(s1, k) <==> IsProcessed(s, k)
    ensures LogOk(s1)
  {
    hide CommandOf, Recorded, LogOk;
    QuietLog(s, s1);
  }

  lemma RowsAfterFailing(s: State, s1: State, m: Ident)
    requires SeenOk(s) && RowsOk(s) && HoldersOk(s) && m in s.rows
    requires s1 == s.(rows := s.rows[m := s.rows[m].(status := Failed)])
    ensures SeenOk(s1) && RowsOk(s1) && HoldersOk(s1)
  {
    hide CommandOf, Recorded;
    assert SeenOk(s1) by { hide RowsOk, HoldersOk; }
    assert RowsOk(s1) by { hide SeenOk, HoldersOk; }
    assert HoldersOk(s1) by { hide SeenOk, RowsOk; }
  }

  lemma CommitKeepsInv(s: State, h: int, now: Instant, luck: Luck)
    requires InboxInv(s) && h in s.holders
    ensures InboxInv(CommitStep(s, h, now, luck))
  {
    hide Transact, CommandOf, Recorded, InboxInv, CommitStep, AfterCommit, MoveTo;
    TransactEffect(s, h, now);
    CommitShape(s, h, now, luck);
    var transacted := Transact(s, s.holders[h], now);
    if transacted.None? || luck == Lost {
      PointKeepsInv(s, h, Failing);
    } else if luck == Unknown {
      PointKeepsInv(transacted.value, h, Failing);
    } else {
      AfterCommitKeepsInv(transacted.value, h);
    }
  }

  lemma CommitShape(s: State, h: int, now: Instant, luck: Luck)
    requires h in s.holders
    ensures var transacted := Transact(s, s.holders[h], now);
            if transacted.None? || luck == Lost then CommitStep(s, h, now, luck) == MoveTo(s, h, Failing)
            else transacted.value.holders == s.holders ==>
                   CommitStep(s, h, now, luck)
                   == if luck == Unknown then MoveTo(transacted.value, h, Failing) else AfterCommit(transacted.value, h)
  {
    hide Transact;
    var transacted := Transact(s, s.holders[h], now);
    assert transacted.Some? && transacted.value.holders == s.holders ==>
        transacted.value.(holders := s.holders) == transacted.value;
  }

  lemma PointKeepsInv(s: State, h: int, point: Point)
    requires InboxInv(s) && h in s.holders && (point == Marking ==> !Carries(s.holders[h].command))
    ensures InboxInv(MoveTo(s, h, point))
  {
    hide InboxInv;
    assert MoveTo(s, h, point).holders == s.holders[h := s.holders[h].(point := point)];
    HandlerMoves(s, MoveTo(s, h, point), h);
  }

  lemma AfterCommitKeepsInv(s: State, h: int)
    requires InboxInv(s) && h in s.holders
    ensures InboxInv(AfterCommit(s, h))
  {
    hide InboxInv, MoveTo;
    var c := s.holders[h];
    if c.point == Acting && c.command.NowNote? {
      PointKeepsInv(s, h, Enriching);
    } else if c.point == Acting && c.command == BadFinish(true) {
      PointKeepsInv(s, h, Marking);
    } else {
      HandlerMoves(s, Drop(s, h), h);
    }
  }

  lemma ActKeepsInv(s: State, h: int, now: Instant, luck: Luck)
    requires InboxInv(s) && h in s.holders
    ensures InboxInv(ActStep(s, h, now, luck))
  {
    hide Transact, CommandOf, Recorded, InboxInv, CommitStep;
    var c := s.holders[h];
    var s1 := ActStep(s, h, now, luck);
    if c.point == Marking || (c.point == Acting && !c.command.Answer?) {
      CommitKeepsInv(s, h, now, luck);
    } else if c.point == Failing {
      var marked := Mark(s.rows, c.ident, c.token, Failed);
      if luck != Lost && marked.Some? {
        FailKeepsInv(s, h, marked.value);
        HandlerMoves(s.(rows := marked.value), s1, h);
      } else {
        HandlerMoves(s, s1, h);
      }
    } else {
      HandlerMoves(s, s1, h);
    }
  }

  lemma StepKeepsInv(s: State, step: Step)
    requires InboxInv(s) && Coherent(s, step)
    ensures InboxInv(Next(s, step))
  {
    hide ActStep, DeliverStep, CommandOf, Recorded;
    match step
    case Deliver(m, user, text, stale, now, luck) => DeliverKeepsInv(s, m, user, text, stale, now, luck);
    case Act(h, now, luck) => if h in s.holders { ActKeepsInv(s, h, now, luck); }
    case Crash(h) =>
      if h in s.holders {
        HandlerMoves(s, Drop(s, h), h);
      } else {
        assert Drop(s, h) == s;
      }
    case Record(user, raw, now) => RecordKeepsInv(s, user, raw, now);
    case Others(actions) => OthersKeepInv(s, actions);
  }

  lemma RecordKeepsInv(s: State, user: int, raw: string, now: Instant)
    requires InboxInv(s)
    ensures InboxInv(RecordStep(s, user, raw, now))
  {
    var s1 := RecordStep(s, user, raw, now);
    assert s.nextNote !in s.notes by {
      assert s.nextNote !in s.captured && s.nextNote !in s.notes.Keys - s.captured;
    }
    assert s1.notes.Keys - s1.captured == s.notes.Keys - s.captured;
    LogSkipsId(s.notes.Keys - s.captured, s.nextNote, s.log);
    hide CommandOf, Recorded, LogOk, NotesLogged;
    QuietLog(s, s1);
  }

  lemma LogSkipsId(ids: set<int>, next: int, log: seq<Effect>)
    requires NotesLogged(ids, next, log)
    ensures NotesLogged(ids, next + 1, log)
  {
  }

  lemma OthersKeepInv(s: State, actions: map<int, Action>)
    requires InboxInv(s)
    ensures InboxInv(s.(actions := actions))
  {
    hide CommandOf, Recorded, LogOk, NotesOk;
    QuietLog(s, s.(actions := actions));
    NotesOkMeans(s, s.(actions := actions));
  }

  lemma {:induction false} RunKeepsInv(s: State, steps: seq<Step>)
    requires InboxInv(s) && Legal(s, steps)
    ensures InboxInv(Run(s, steps))
  {
    if steps != [] {
      hide InboxInv, Next, Coherent;
      RunKeepsInv(s, steps[..|steps| - 1]);
      StepKeepsInv(Run(s, steps[..|steps| - 1]), steps[|steps| - 1]);
    }
  }

  // ---- Main results ----

  // Exactly once: over every interleaving of duplicate deliveries, reclaims, late handlers, lost
  // writes, commits reported as errors and crashes, an update that asks for a note or a done
  // action has committed one mutation if it is processed and none otherwise, and that mutation is
  // the one its text asks for; any other update never commits one. Each update is handed to a
  // handler at most three times.
  lemma ExactlyOnce(steps: seq<Step>, m: Ident)
    requires Legal(INIT, steps)
    ensures var s := Run(INIT, steps);
            var es := EffectsOf(s.log, m);
            && |es| == (if IsProcessed(s, m) && m in s.seen && Carries(CommandOf(s.seen[m])) then 1 else 0)
            && (forall e :: e in es ==> EffectFits(s, e, CommandOf(s.seen[m])))
            && Starts(s.starts, m) <= 3
            && (Starts(s.starts, m) == if m in s.rows then s.rows[m].attempts else 0)
  {
    hide Run, CommandOf, Recorded;
    assert forall k :: EffectsOk(INIT, k);
    RunKeepsInv(INIT, steps);
    assert EffectsOk(Run(INIT, steps), m);
  }

  // A note as it is captured, and one that is claimed at once.
  predicate IsCaptured(n: Queue.Note, raw: string) {
    n == Queue.Note(n.user, raw, None, [], Queue.Pending, n.createdAt, None, None, None, 0)
  }

  predicate IsOwn(n: Queue.Note, raw: string) {
    n == Queue.Note(n.user, raw, None, [], Queue.Processing, n.createdAt, Some(n.createdAt), None, None, 1)
  }

  predicate AddedNote(s: State, es: seq<Effect>, m: Ident) {
    |es| == 1 && es[0].NoteAdded? && es[0].ident == m && es[0].note in s.notes
  }

  // What a processed update has done, from its text alone: a plain text and /note with one have
  // added one note of that text, /now one that is claimed, /done with a number has closed that
  // action, and any other text has done nothing.
  lemma EffectFollowsText(steps: seq<Step>, m: Ident)
    requires Legal(INIT, steps) && IsProcessed(Run(INIT, steps), m)
    ensures m in Run(INIT, steps).seen
    ensures var s := Run(INIT, steps);
            var text, es := s.seen[m], EffectsOf(s.log, m);
            && !Blank(text) && !AsksLink(text)
            && (forall raw :: AsksNote(text, raw) ==> AddedNote(s, es, m) && IsCaptured(s.notes[es[0].note], raw))
            && (forall raw :: AsksNow(text, raw) ==> AddedNote(s, es, m) && IsOwn(s.notes[es[0].note], raw))
            && (forall n :: AsksDone(text, n) ==> es == [ActionDone(m, n)])
            && (es != [] ==> (exists raw :: AsksNote(text, raw) || AsksNow(text, raw)) || exists n :: AsksDone(text, n))
  {
    hide Run, CommandOf, AsksNote, AsksNow, AsksDone, AsksLink, Blank, Recorded;
    assert forall k :: EffectsOk(INIT, k);
    RunKeepsInv(INIT, steps);
    var s := Run(INIT, steps);
    assert EffectsOk(s, m);
    RecordedExactly(s.seen[m]);
    CommandIsAskedFor(s.seen[m]);
    EffectsAreOf(s.log, m);
    hide SeenOk, RowsOk, HoldersOk, LogOk, NotesOk;
    EffectsFit(s, EffectsOf(s.log, m), m, CommandOf(s.seen[m]));
  }

  lemma EffectsFit(s: State, es: seq<Effect>, m: Ident, c: Command)
    requires |es| == (if Carries(c) then 1 else 0) && forall e :: e in es ==> e.ident == m && EffectFits(s, e, c)
    ensures forall raw :: c == Capture(raw) ==> AddedNote(s, es, m) && IsCaptured(s.notes[es[0].note], raw)
    ensures forall raw :: c == NowNote(raw) ==> AddedNote(s, es, m) && IsOwn(s.notes[es[0].note], raw)
    ensures forall n :: c == Finish(n) ==> es == [ActionDone(m, n)]
    ensures es != [] ==> (exists raw :: c == Capture(raw) || c == NowNote(raw)) || exists n :: c == Finish(n)
  {
    if Carries(c) {
      assert es[0] in es;
      match c
      case Capture(raw) =>
      case NowNote(raw) =>
      case Finish(n) =>
    }
  }

  lemma {:induction false} EffectsAreOf(log: seq<Effect>, m: Ident)
    ensures forall e :: e in EffectsOf(log, m) ==> e.ident == m
  {
    if log != [] {
      EffectsAreOf(log[..|log| - 1], m);
    }
  }

  // No two rows belong to one update: they share neither its id nor its chat and message.
  lemma OneRowPerUpdate(steps: seq<Step>, a: Ident, b: Ident)
    requires Legal(INIT, steps) && a in Run(INIT, steps).rows && b in Run(INIT, steps).rows && a != b
    ensures a.update != b.update && (a.chat != b.chat || a.message != b.message)
  {
    hide Run, CommandOf, Recorded;
    assert forall k :: EffectsOk(INIT, k);
    RunKeepsInv(INIT, steps);
    hide RowsOk, HoldersOk, LogOk, NotesOk;
    assert !Matches(a, b);
  }

  // Every note has one origin: it came in through the web API and no update added it, or it is
  // the one mutation of exactly one update, and no two updates share a note.
  lemma EveryNoteHasOneOrigin(steps: seq<Step>, n: int)
    requires Legal(INIT, steps) && n in Run(INIT, steps).notes
    ensures var s := Run(INIT, steps);
            if n in s.captured then forall i :: 0 <= i < |s.log| ==> !Adds(s.log[i], n)
            else exists i :: 0 <= i < |s.log| && Adds(s.log[i], n)
                             && forall j :: 0 <= j < |s.log| && Adds(s.log[j], n) ==> j == i
  {
    hide Run, CommandOf, Recorded;
    assert forall k :: EffectsOk(INIT, k);
    RunKeepsInv(INIT, steps);
    var s := Run(INIT, steps);
    if n !in s.captured {
      assert n in s.notes.Keys - s.captured;
      var i :| 0 <= i < |s.log| && Adds(s.log[i], n);
      assert forall j :: 0 <= j < |s.log| && Adds(s.log[j], n) ==> j == i;
    }
  }

  ghost predicate KeepsProcessed(rows: map<Ident, Row>, rows1: map<Ident, Row>) {
    forall k :: k in rows && rows[k].status == Processed ==> k in rows1 && rows1[k] == rows[k]
  }

  lemma DeliverKeepsProcessed(s: State, m: Ident, user: int, text: string, stale: Instant, now: Instant, luck: Luck)
    requires SeenOk(s) && Coherent(s, Deliver(m, user, text, stale, now, luck))
    ensures KeepsProcessed(s.rows, DeliverStep(s, m, user, text, stale, now, luck).rows)
  {
    DeliverCases(s, m, user, text, stale, now, luck);
    hide DeliverStep, SeenOk, CommandOf, Recorded, WholeSeconds;
  }

  lemma RowsAfterCommit(s: State, h: int, now: Instant, luck: Luck)
    requires h in s.holders
    ensures var c := s.holders[h];
            var rows1 := CommitStep(s, h, now, luck).rows;
            rows1 == s.rows || (Transact(s, c, now).Some? && Transact(s, c, now).value.rows == rows1)
  {
    hide Transact;
  }

  lemma RowsAfterFail(s: State, h: int, luck: Luck)
    requires h in s.holders
    ensures var c := s.holders[h];
            var rows1 := FailStep(s, h, luck).rows;
            rows1 == s.rows || Mark(s.rows, c.ident, c.token, Failed) == Some(rows1)
  {
    hide Mark;
  }

  lemma CommitKeepsProcessed(s: State, h: int, now: Instant, luck: Luck)
    requires InboxInv(s) && h in s.holders
    ensures KeepsProcessed(s.rows, CommitStep(s, h, now, luck).rows)
  {
    RowsAfterCommit(s, h, now, luck);
    TransactEffect(s, h, now);
    hide InboxInv, Transact, CommitStep;
  }

  lemma FailKeepsProcessed(s: State, h: int, luck: Luck)
    requires InboxInv(s) && h in s.holders
    ensures KeepsProcessed(s.rows, FailStep(s, h, luck).rows)
  {
    RowsAfterFail(s, h, luck);
    var marked := Mark(s.rows, s.holders[h].ident, s.holders[h].token, Failed);
    if marked.Some? { FailKeepsInv(s, h, marked.value); }
    hide InboxInv, Mark, FailStep;
  }

  lemma ActKeepsProcessed(s: State, h: int, now: Instant, luck: Luck)
    requires InboxInv(s) && h in s.holders
    ensures KeepsProcessed(s.rows, ActStep(s, h, now, luck).rows)
  {
    assert KeepsProcessed(s.rows, s.rows);
    hide InboxInv, ActStep, CommitStep, FailStep, KeepsProcessed;
    CommitKeepsProcessed(s, h, now, luck);
    FailKeepsProcessed(s, h, luck);
    RowsAfterAct(s, h, now, luck);
  }

  lemma RowsAfterAct(s: State, h: int, now: Instant, luck: Luck)
    requires h in s.holders
    ensures ActStep(s, h, now, luck).rows in {s.rows, CommitStep(s, h, now, luck).rows, FailStep(s, h, luck).rows}
  {
    hide CommitStep, FailStep;
  }

  lemma StepKeepsProcessed(s: State, step: Step)
    requires InboxInv(s) && Coherent(s, step)
    ensures KeepsProcessed(s.rows, Next(s, step).rows)
  {
    hide SeenOk, RowsOk, HoldersOk, LogOk, NotesOk, Coherent, DeliverStep, ActStep;
    match step
    case Deliver(k, user, text, stale, now, luck) => DeliverKeepsProcessed(s, k, user, text, stale, now, luck);
    case Act(h, now, luck) => if h in s.holders { ActKeepsProcessed(s, h, now, luck); }
    case Crash(h) =>
    case Record(user, raw, now) =>
    case Others(actions) =>
  }

  // Processed is absorbing, also when /now's LLM call fails after the commit.
  lemma {:induction false} ProcessedIsAbsorbing(s: State, steps: seq<Step>, m: Ident)
    requires InboxInv(s) && Legal(s, steps) && IsProcessed(s, m)
    ensures IsProcessed(Run(s, steps), m) && Run(s, steps).rows[m] == s.rows[m]
  {
    if steps != [] {
      hide InboxInv, Next, Coherent;
      RunKeepsInv(s, steps[..|steps| - 1]);
      ProcessedIsAbsorbing(s, steps[..|steps| - 1], m);
      StepKeepsProcessed(Run(s, steps[..|steps| - 1]), steps[|steps| - 1]);
    }
  }

  // A claim fences: after it, exactly its own token can mark the update, whatever token could
  // before, a second claim succeeds only once this one is stale, and no other update is affected.
  lemma ClaimFences(rows: map<Ident, Row>, m: Ident, stale: Instant, now: Instant, token: Instant, status: Status)
    requires Alone(rows, m) && Claim(rows, m, stale, now).1
    ensures var rows1 := Claim(rows, m, stale, now).0;
            && (Mark(rows1, m, token, status).Some? <==> token == now)
            && (forall later :: Claim(rows1, m, stale, later).1 ==>
                  rows1[m].attempts < 3 && now + WholeSeconds(stale) < later)
            && rows1.Keys == rows.Keys + {m}
            && (forall k :: k in rows && k != m ==> rows1[k] == rows[k])
            && rows1[m] == Row(Processing, now, if m in rows then rows[m].attempts + 1 else 1) && rows1[m].attempts <= 3
  {
    ClaimIsOneRow(rows, m, stale, now);
    var rows1 := Claim(rows, m, stale, now).0;
    hide Claim, WholeSeconds;
    MarkIsOneRow(rows1, m, token, status);
    forall later | Claim(rows1, m, stale, later).1
      ensures rows1[m].attempts < 3 && now + WholeSeconds(stale) < later
    {
      ClaimIsOneRow(rows1, m, stale, later);
    }
  }

  // A claim overtaken by a later one can write nothing.
  lemma LateHandlerIsPowerless(s: State, h: int, status: Status, now: Instant)
    requires InboxInv(s) && h in s.holders
    requires s.holders[h].token != s.rows[s.holders[h].ident].startedAt
    ensures Mark(s.rows, s.holders[h].ident, s.holders[h].token, status).None?
    ensures Transact(s, s.holders[h], now).None?
  {
    assert HolderOk(s, s.holders[h]);
    hide CommandOf, Recorded, LogOk, NotesOk;
    MarkIsOneRow(s.rows, s.holders[h].ident, s.holders[h].token, status);
    MarkIsOneRow(s.rows, s.holders[h].ident, s.holders[h].token, Processed);
  }
}
