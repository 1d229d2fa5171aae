/** The bot-to-bot conversation state machine of `ConversationManager` in
    `telegram_openai_assistant/conversation_manager.py`.

    There is ONE session for the whole process: an optional active
    conversation (group and initiator), the group id, the fixed rotation
    `bot_order` and the cursor `current_bot_index` into it. Sending to the
    chat, sleeping and asking a bot's assistant are effects: a turn takes the
    assistant's answer and the elapsed time as inputs and returns what would
    be sent and how long it would sleep. */
module Conversation {
  import opened Wrappers
  import opened Text
  import Assistant

  type BotName = string
  type GroupId = int

  /** The `{"group_id": ..., "initiating_bot": ...}` record of `active_conversation`. */
  datatype ActiveConversation = ActiveConversation(groupId: GroupId, initiatingBot: BotName)

  /** The fields of `ConversationManager`. `order` is the key order of
      `all_bots`; the bot objects themselves are not modelled. */
  datatype Manager = Manager(
    active: Option<ActiveConversation>,
    order: seq<BotName>,
    cursor: nat,
    groupId: Option<GroupId>)

  /** `__init__`: no bots, no conversation, cursor 0. */
  function NewManager(): (m: Manager)
    ensures Valid(m)
    ensures forall g :: !IsActive(m, g)
  {
    Manager(None, [], 0, None)
  }

  /** The two records of the session agree: `group_id` is set exactly while
      a conversation is active, and to that conversation's group. */
  predicate Consistent(m: Manager) {
    && (m.active.Some? <==> m.groupId.Some?)
    && (m.active.Some? ==> m.active.value.groupId == m.groupId.value)
  }

  /** The cursor indexes the rotation (or is the initial 0). */
  predicate CursorInRange(m: Manager) {
    m.cursor == 0 || m.cursor < |m.order|
  }

  predicate Valid(m: Manager) {
    Consistent(m) && CursorInRange(m)
  }

  /** `is_active(group_id)`: a conversation is active and it is in `g`. */
  predicate IsActive(m: Manager, g: GroupId)
    ensures Consistent(m) ==> (IsActive(m, g) <==> m.active.Some? && m.active.value.groupId == g)
    ensures IsActive(m, g) <==> ContinuesAfterSleep(m) && m.groupId == Some(g)
  {
    m.active.Some? && m.groupId == Some(g)
  }

  /** `register_bots`: replaces the rotation with the registered names, in
      registration order. The session and the cursor are left as they are. */
  function Register(m: Manager, names: seq<BotName>): (r: Manager)
    ensures r.order == names
    ensures r.active == m.active && r.groupId == m.groupId && r.cursor == m.cursor
    ensures Consistent(m) ==> Consistent(r)
    ensures m.cursor < |names| || m.cursor == 0 ==> CursorInRange(r)
  {
    m.(order := names)
  }

  /** `list.index`: the first position of `x` in `s`, or `|s|` when absent
      (where Python raises `ValueError`). */
  function IndexOf(s: seq<BotName>, x: BotName): (i: nat)
    ensures i <= |s|
    ensures i < |s| ==> s[i] == x && x !in s[..i]
    ensures i == |s| ==> x !in s
  {
    if s == [] then 0
    else if s[0] == x then 0
    else
      var i := 1 + IndexOf(s[1..], x);
      assert i < |s| ==> s[..i] == [s[0]] + s[1..][..i - 1];
      i
  }

  datatype StartOutcome =
    | Started(firstSpeaker: BotName)  // the name `start_conversation` returns
    | AlreadyActive                   // it returns `None`
    | InitiatorNotRegistered          // `bot_order.index` raises `ValueError`

  /** `start_conversation(g, initiator)`. Only an idle manager starts a
      conversation, whatever the group: there is a single global session.
      The cursor goes to the slot after the initiator's first position, with
      wrap-around, and that bot speaks first (with one bot, the initiator
      itself). The session is marked active BEFORE the initiator is looked
      up, so an unregistered initiator raises yet leaves it active. */
  function Start(m: Manager, g: GroupId, initiator: BotName): (r: (Manager, StartOutcome))
    ensures m.active.Some? ==> r == (m, AlreadyActive)
    ensures m.active.None? && initiator !in m.order ==>
      r == (m.(active := Some(ActiveConversation(g, initiator)), groupId := Some(g)), InitiatorNotRegistered)
    ensures m.active.None? && initiator in m.order ==>
      && r.1.Started?
      && r.0 == m.(active := Some(ActiveConversation(g, initiator)), groupId := Some(g), cursor := r.0.cursor)
      && r.0.cursor < |m.order|
      && r.1.firstSpeaker == m.order[r.0.cursor]
      && m.order[(r.0.cursor + |m.order| - 1) % |m.order|] == initiator
      && initiator !in m.order[..(r.0.cursor + |m.order| - 1) % |m.order|]
    ensures r.1.AlreadyActive? <==> m.active.Some?
    ensures !r.1.AlreadyActive? ==> IsActive(r.0, g)
    ensures Valid(m) ==> Valid(r.0)
  {
    if m.active.Some? then (m, AlreadyActive)
    else
      var marked := m.(active := Some(ActiveConversation(g, initiator)), groupId := Some(g));
      var i := IndexOf(m.order, initiator);
      if i == |m.order| then (marked, InitiatorNotRegistered)
      else
        var n := |m.order|;
        var c := (i + 1) % n;
        assert (c + n - 1) % n == i by { StepBack(i, n); }
        (marked.(cursor := c), Started(m.order[c]))
  }

  /** Stepping one slot forward and one back returns to the slot. */
  lemma StepBack(i: nat, n: nat)
    requires i < n
    ensures ((i + 1) % n + n - 1) % n == i
  {
    if i + 1 == n {
      ModUnique(i + 1, 1, 0, n);
      ModSmall(n - 1, n);
    } else {
      ModSmall(i + 1, n);
      ModUnique(i + n, 1, i, n);
    }
  }

  /** `end_conversation(g)`: succeeds exactly when a conversation is active in
      `g`, and then leaves the manager idle with the cursor back at 0; otherwise
      it reports failure and changes nothing. */
  function End(m: Manager, g: GroupId): (r: (Manager, bool))
    ensures r.1 <==> IsActive(m, g)
    ensures r.1 ==> r.0 == Manager(None, m.order, 0, None)
    ensures !r.1 ==> r.0 == m
    ensures Valid(m) ==> Valid(r.0)
  {
    if m.active.Some? && m.groupId == Some(g) then
      (m.(active := None, groupId := None, cursor := 0), true)
    else
      (m, false)
  }

  /** `get_next_bot`: with no bots, `None` and no change; otherwise the cursor
      moves one slot forward with wrap-around and that bot is returned. */
  function GetNextBot(m: Manager): (r: (Manager, Option<BotName>))
    ensures |m.order| == 0 ==> r == (m, None)
    ensures |m.order| > 0 ==>
      && r.0 == m.(cursor := r.0.cursor)
      && r.0.cursor < |m.order|
      && r.0.cursor == (m.cursor + 1) % |m.order|
      && r.1 == Some(m.order[r.0.cursor])
    ensures Valid(m) ==> Valid(r.0)
  {
    if |m.order| == 0 then (m, None)
    else
      var c := (m.cursor + 1) % |m.order|;
      (m.(cursor := c), Some(m.order[c]))
  }

  // ---------------------------------------------------------------------
  // One turn of `handle_turn`

  /** Pacing constants of line 79 (the comment there says 5-15 s; the code uses 15 and 25). */
  const MinDelay: real := 15.0
  const TargetPeriod: real := 25.0

  /** `max(15, 25 - elapsed)`: at least 15 s and at least what is left of
      25 s, and no more than either requires; at most 25 s when the elapsed
      time is not negative. */
  function PacingDelay(elapsed: real): (d: real)
    ensures d >= MinDelay && d >= TargetPeriod - elapsed
    ensures d == MinDelay || d == TargetPeriod - elapsed
    ensures elapsed >= 0.0 ==> d <= TargetPeriod
  {
    if MinDelay >= TargetPeriod - elapsed then MinDelay else TargetPeriod - elapsed
  }

  datatype TurnOutcome =
    | NotRunning                                                 // no group (or group 0) or no bots: return at once
    | NoSpeaker                                                  // the next bot's name is empty (falsy)
    | AnswerFailed(speaker: BotName)                             // the bot's `get_answer` raised
    | Spoke(speaker: BotName, chat: GroupId, reply: string, delay: real)  // sent `reply`, then sleeps `delay`

  /** Whether `handle_turn` runs at all: `not self.group_id or not self.bot_order`
      returns, and Python's `not` also holds for group id 0. */
  predicate Runs(m: Manager) {
    m.groupId.Some? && m.groupId.value != 0 && |m.order| > 0
  }

  /** The part of `handle_turn` before the sleep. `answer` is what the next
      bot's `get_answer` returned (`None` when it raised) and `elapsed` the
      seconds it took. The speaker is the next bot in the rotation; the reply
      is the stripped answer, sent to the session's group; the delay is the
      pacing delay. */
  function Turn(m: Manager, answer: Option<string>, elapsed: real): (r: (Manager, TurnOutcome))
    ensures !Runs(m) <==> r.1 == NotRunning
    ensures !Runs(m) ==> r.0 == m
    ensures Runs(m) ==>
      && r.0 == m.(cursor := (m.cursor + 1) % |m.order|)
      && (r.1.NoSpeaker? <==> m.order[r.0.cursor] == "")
      && (r.1.AnswerFailed? <==> m.order[r.0.cursor] != "" && answer == None)
    ensures r.1.Spoke? ==>
      && r.1.speaker == m.order[r.0.cursor] != ""
      && r.1.chat == m.groupId.value
      && answer.Some? && r.1.reply == Strip(answer.value)
      && r.1.delay >= MinDelay
      && (elapsed >= 0.0 ==> r.1.delay <= TargetPeriod)
    ensures Valid(m) ==> Valid(r.0)
  {
    if !Runs(m) then (m, NotRunning)
    else
      var (m1, next) := GetNextBot(m);
      var name := next.value;
      if name == "" then (m1, NoSpeaker)
      else match answer
        case None => (m1, AnswerFailed(name))
        case Some(a) => (m1, Spoke(name, m.groupId.value, Strip(a), PacingDelay(elapsed)))
  }

  /** The test after the sleep: `is_active(self.group_id)` re-reads the group
      id and compares it with itself, so it holds whenever ANY conversation is
      active, not only the one this turn belonged to. */
  predicate ContinuesAfterSleep(m: Manager)
    ensures ContinuesAfterSleep(m) <==> m.active.Some?
  {
    m.active.Some? && m.groupId == m.groupId
  }

  /** In a consistent manager the test after the sleep holds exactly when some group is active. */
  lemma ContinuesIffSomeGroupActive(m: Manager)
    requires Consistent(m)
    ensures ContinuesAfterSleep(m) <==> exists g :: IsActive(m, g)
  {
    if ContinuesAfterSleep(m) {
      assert IsActive(m, m.groupId.value);
    }
  }

  // ---------------------------------------------------------------------
  // Calls that may run while a turn awaits, and the turn loop

  /** A call made by another handler or another turn loop while a turn
      awaits the send (line 82) or the sleep (line 85). */
  datatype Command =
    | EndCommand(group: GroupId)                        // `end_conversation(group)`
    | StartCommand(group: GroupId, initiator: BotName)  // `start_conversation(group, initiator)`
    | NextBotCommand                                    // another loop's `get_next_bot()`

  /** One command's effect on the manager. */
  function ApplyOne(m: Manager, cmd: Command): (r: Manager)
    ensures Valid(m) ==> Valid(r)
    ensures r.order == m.order
  {
    match cmd
    case EndCommand(g) => End(m, g).0
    case StartCommand(g, b) => Start(m, g, b).0
    case NextBotCommand => GetNextBot(m).0
  }

  /** Applies the commands in order (their results go to their own callers). */
  function Apply(m: Manager, cmds: seq<Command>): (r: Manager)
    ensures Valid(m) ==> Valid(r)
    ensures r.order == m.order
    decreases |cmds|
  {
    if cmds == [] then m else Apply(ApplyOne(m, cmds[0]), cmds[1..])
  }

  /** What the outside world provides for one turn: the answer (`None` when
      `get_answer` raised), the seconds it took, whether `send_message`
      returned (`false` when it raised), and the calls made while the turn
      awaited the send and the sleep. */
  datatype TurnInput = TurnInput(answer: Option<string>, elapsed: real, sent: bool, duringSleep: seq<Command>)

  /** One message a bot sent to a group, and the sleep that followed it. */
  datatype Said = Said(speaker: BotName, chat: GroupId, text: string, delay: real)

  /** `handle_turn` and its recursion, one input per turn: each turn whose
      message is delivered is recorded, the calls made while it awaited are
      applied, and the loop goes on only while the test after the sleep holds.
      Every other outcome ends the loop; a failed send ends it with nothing
      recorded, the cursor advanced and the session left as it is. */
  function Run(m: Manager, inputs: seq<TurnInput>): (r: (Manager, seq<Said>))
    ensures |r.1| <= |inputs|
    ensures Valid(m) ==> Valid(r.0)
    ensures r.0.order == m.order
    decreases |inputs|
  {
    if inputs == [] then (m, [])
    else
      var (m1, out) := Turn(m, inputs[0].answer, inputs[0].elapsed);
      if !out.Spoke? then (m1, [])
      else
        var m2 := Apply(m1, inputs[0].duringSleep);
        var said := Said(out.speaker, out.chat, out.reply, out.delay);
        if !inputs[0].sent then (m2, [])
        else if !ContinuesAfterSleep(m2) then (m2, [said])
        else
          var (m3, rest) := Run(m2, inputs[1..]);
          (m3, [said] + rest)
  }

  // ---------------------------------------------------------------------
  // Properties of the session

  /** Whatever happens while the turns sleep, every message of the loop is
      said by a registered bot and followed by at least the minimum delay. */
  lemma {:induction false} RunMessagesWellFormed(m: Manager, inputs: seq<TurnInput>)
    ensures forall j :: 0 <= j < |Run(m, inputs).1| ==>
      Run(m, inputs).1[j].delay >= MinDelay && Run(m, inputs).1[j].speaker in m.order
    decreases |inputs|
  {
    if inputs != [] {
      var (m1, out) := Turn(m, inputs[0].answer, inputs[0].elapsed);
      if out.Spoke? {
        var m2 := Apply(m1, inputs[0].duringSleep);
        if inputs[0].sent && ContinuesAfterSleep(m2) {
          RunMessagesWellFormed(m2, inputs[1..]);
          var rest := Run(m2, inputs[1..]).1;
          assert Run(m, inputs).1 == [Said(out.speaker, out.chat, out.reply, out.delay)] + rest;
        }
      }
    }
  }

  /** Ending twice is harmless: the second call reports that nothing was ended. */
  lemma EndTwice(m: Manager, g: GroupId)
    ensures var m1 := End(m, g).0; End(m1, g) == (m1, false)
  {
  }

  /** A single global session: once a start has been attempted on an idle
      manager, every further start is refused, in any group, until an end. */
  lemma SecondStartRefused(m: Manager, g1: GroupId, b1: BotName, g2: GroupId, b2: BotName)
    requires m.active.None?
    ensures var m1 := Start(m, g1, b1).0; Start(m1, g2, b2) == (m1, AlreadyActive)
  {
  }

  /** An unregistered initiator raises but leaves the session active in its
      group, so later starts are refused until `end_conversation` for that group. */
  lemma UnregisteredInitiatorBlocks(m: Manager, g: GroupId, b: BotName, g2: GroupId, b2: BotName)
    requires Valid(m) && m.active.None? && b !in m.order
    ensures var m1 := Start(m, g, b).0;
      && Start(m, g, b).1 == InitiatorNotRegistered
      && IsActive(m1, g)
      && Start(m1, g2, b2).1 == AlreadyActive
      && End(m1, g) == (Manager(None, m.order, 0, None), true)
  {
  }

  /** With a single registered bot, the initiator is also the first speaker. */
  lemma SingleBotAnswersItself(m: Manager, g: GroupId, b: BotName)
    requires m.active.None? && m.order == [b]
    ensures Start(m, g, b).1 == Started(b)
  {
  }

  /** `k` calls of `get_next_bot`. */
  function Advance(m: Manager, k: nat): (r: Manager)
    ensures r == m.(cursor := r.cursor)
    ensures m.cursor < |m.order| ==> r.cursor < |m.order|
    decreases k
  {
    if k == 0 then m else Advance(GetNextBot(m).0, k - 1)
  }

  lemma MulBound(d: int, n: int)
    requires n > 0
    ensures d >= 1 ==> d * n >= n
    ensures d <= -1 ==> d * n <= -n
  {
  }

  /** The remainder is the unique `r` in `[0, n)` with `a == q * n + r`. */
  lemma ModUnique(a: int, q: int, r: int, n: int)
    requires n > 0 && 0 <= r < n && a == q * n + r
    ensures a % n == r
  {
    var q', r' := a / n, a % n;
    assert a == q' * n + r';
    assert (q - q') * n == r' - r;
    MulBound(q - q', n);
  }

  /** Adding after reducing modulo `n` is adding before. */
  lemma ModAdd(a: nat, b: nat, n: nat)
    requires n > 0
    ensures (a % n + b) % n == (a + b) % n
  {
    var q0, r0 := a / n, a % n;
    var x := r0 + b;
    var q1, r1 := x / n, x % n;
    assert x == q1 * n + r1;
    assert a + b == (q0 + q1) * n + r1 by {
      assert a == q0 * n + r0;
      assert (q0 + q1) * n == q0 * n + q1 * n;
    }
    ModUnique(a + b, q0 + q1, r1, n);
  }

  lemma ModSmall(c: nat, n: nat)
    requires c < n
    ensures c % n == c
  {
    ModUnique(c, 0, c, n);
  }

  /** One slot on, then `k - 1` more, is `k` slots on. */
  lemma SlotStep(c: nat, k: nat, n: nat)
    requires n > 0 && k > 0
    ensures ((c + 1) % n + (k - 1)) % n == (c + k) % n
  {
    ModAdd(c + 1, k - 1, n);
  }

  /** The cursor after `k` single steps with wrap-around. */
  function Steps(c: nat, k: nat, n: nat): nat
    requires n > 0
    decreases k
  {
    if k == 0 then c else Steps((c + 1) % n, k - 1, n)
  }

  /** `k` single steps with wrap-around are one step of `k`, modulo `n`. */
  lemma {:induction false} StepsMod(c: nat, k: nat, n: nat)
    requires c < n
    ensures Steps(c, k, n) == (c + k) % n
    decreases k
  {
    if k == 0 {
      ModSmall(c, n);
    } else {
      StepsMod((c + 1) % n, k - 1, n);
      SlotStep(c, k, n);
    }
  }

  /** `k` calls of `get_next_bot` take `k` single steps of the cursor. */
  lemma {:induction false} AdvanceSteps(m: Manager, k: nat)
    requires |m.order| > 0
    ensures Advance(m, k).cursor == Steps(m.cursor, k, |m.order|)
    decreases k
  {
    if k > 0 {
      AdvanceSteps(m.(cursor := (m.cursor + 1) % |m.order|), k - 1);
    }
  }

  /** The rotation is fixed: `k` calls of `get_next_bot` move the cursor `k`
      slots forward modulo the number of bots and change nothing else. */
  lemma AdvanceCursor(m: Manager, k: nat)
    requires 0 <= m.cursor < |m.order|
    ensures Advance(m, k).cursor == (m.cursor + k) % |m.order|
    ensures Advance(m, k) == m.(cursor := Advance(m, k).cursor)
  {
    AdvanceSteps(m, k);
    StepsMod(m.cursor, k, |m.order|);
  }


  /** After `start_conversation(g, order[i])` and `k` calls of
      `get_next_bot`, the cursor is at `(i + 1 + k) % n` (for distinct bot names). */
  lemma StartThenAdvance(m: Manager, g: GroupId, i: nat, k: nat)
    requires m.active.None? && i < |m.order|
    requires forall j :: 0 <= j < i ==> m.order[j] != m.order[i]
    ensures Start(m, g, m.order[i]).1.Started?
    ensures Advance(Start(m, g, m.order[i]).0, k).cursor == (i + 1 + k) % |m.order|
  {
    var n := |m.order|;
    assert IndexOf(m.order, m.order[i]) == i;
    var m1 := Start(m, g, m.order[i]).0;
    assert m1.cursor == (i + 1) % n;
    AdvanceCursor(m1, k);
    ModAdd(i + 1, k, n);
  }

  // ---------------------------------------------------------------------
  // Properties of the turn loop

  /** All the bots can speak: every registered name is non-empty. */
  predicate NamedBots(m: Manager) {
    forall k :: 0 <= k < |m.order| ==> m.order[k] != ""
  }

  /** Every turn gets an answer, every send goes through, and no other call
      runs while a turn awaits. */
  predicate Steady(inputs: seq<TurnInput>) {
    forall k :: 0 <= k < |inputs| ==> inputs[k].answer.Some? && inputs[k].sent && inputs[k].duringSleep == []
  }

  lemma SteadyTail(inputs: seq<TurnInput>, j: nat)
    requires Steady(inputs) && 0 < j < |inputs|
    ensures Steady(inputs[1..]) && inputs[1..][j - 1] == inputs[j]
  {
  }

  /** An undisturbed turn of a running conversation with an answer: the next
      bot speaks to the session's group and the loop goes on with the rest. */
  lemma RunStep(m: Manager, inputs: seq<TurnInput>)
    requires Valid(m) && Runs(m) && NamedBots(m)
    requires inputs != [] && inputs[0].answer.Some? && inputs[0].sent && inputs[0].duringSleep == []
    ensures var m1 := m.(cursor := (m.cursor + 1) % |m.order|);
      var said := Said(m.order[m1.cursor], m.groupId.value, Strip(inputs[0].answer.value), PacingDelay(inputs[0].elapsed));
      Run(m, inputs) == (Run(m1, inputs[1..]).0, [said] + Run(m1, inputs[1..]).1)
  {
    var m1 := m.(cursor := (m.cursor + 1) % |m.order|);
    assert Turn(m, inputs[0].answer, inputs[0].elapsed).0 == m1;
    assert m.order[m1.cursor] != "";
    assert Apply(m1, []) == m1;
  }

  /** With answers for every turn and nothing said while a turn sleeps, the
      loop speaks once per input and leaves the manager as `|inputs|` calls
      of `get_next_bot` would. */
  lemma {:induction false} RunAdvances(m: Manager, inputs: seq<TurnInput>)
    requires Valid(m) && Runs(m) && NamedBots(m)
    requires Steady(inputs)
    ensures |Run(m, inputs).1| == |inputs|
    ensures Run(m, inputs).0 == Advance(m, |inputs|)
    decreases |inputs|
  {
    if inputs != [] {
      RunStep(m, inputs);
      RunAdvances(GetNextBot(m).0, inputs[1..]);
    }
  }

  /** The same, with the cursor arithmetic done: the loop speaks once per
      input and the cursor ends `|inputs|` slots further on. */
  lemma RunLength(m: Manager, inputs: seq<TurnInput>)
    requires Valid(m) && Runs(m) && NamedBots(m)
    requires Steady(inputs)
    ensures |Run(m, inputs).1| == |inputs|
    ensures Run(m, inputs).0 == m.(cursor := (m.cursor + |inputs|) % |m.order|)
  {
    RunAdvances(m, inputs);
    AdvanceCursor(m, |inputs|);
  }

  /** Under the same conditions, the `j`-th message is the answer to the
      `j`-th input, said by the bot `j + 1` calls of `get_next_bot` on, in
      the session's group, followed by the pacing delay of that turn. */
  lemma {:induction false} RunSaidAt(m: Manager, inputs: seq<TurnInput>, j: nat)
    requires Valid(m) && Runs(m) && NamedBots(m)
    requires Steady(inputs)
    requires j < |inputs|
    ensures j < |Run(m, inputs).1|
    ensures Run(m, inputs).1[j] == Said(m.order[Advance(m, j + 1).cursor], m.groupId.value,
                                        Strip(inputs[j].answer.value), PacingDelay(inputs[j].elapsed))
    decreases j
  {
    var m1 := GetNextBot(m).0;
    assert Advance(m, j + 1) == Advance(m1, j);
    if j == 0 {
      RunStep(m, inputs);
    } else {
      RunShift(m, inputs, j);
      SteadyTail(inputs, j);
      RunSaidAt(m1, inputs[1..], j - 1);
    }
  }

  /** The same, with the cursor arithmetic done: the speaker of the `j`-th
      message is the bot `j + 1` slots after the cursor, wrapping around. */
  lemma RunSaid(m: Manager, inputs: seq<TurnInput>, j: nat)
    requires Valid(m) && Runs(m) && NamedBots(m)
    requires Steady(inputs)
    requires j < |inputs|
    ensures j < |Run(m, inputs).1|
    ensures Run(m, inputs).1[j] == Said(m.order[(m.cursor + 1 + j) % |m.order|], m.groupId.value,
                                        Strip(inputs[j].answer.value), PacingDelay(inputs[j].elapsed))
  {
    RunSaidAt(m, inputs, j);
    AdvanceCursor(m, j + 1);
  }

  /** Past the first turn, the messages are those of the loop started one slot on. */
  lemma RunShift(m: Manager, inputs: seq<TurnInput>, j: nat)
    requires Valid(m) && Runs(m) && NamedBots(m)
    requires Steady(inputs)
    requires 0 < j < |inputs|
    ensures var m1 := m.(cursor := (m.cursor + 1) % |m.order|);
      j < |Run(m, inputs).1| && j - 1 < |Run(m1, inputs[1..]).1| &&
      Run(m, inputs).1[j] == Run(m1, inputs[1..]).1[j - 1]
  {
    var m1 := m.(cursor := (m.cursor + 1) % |m.order|);
    RunStep(m, inputs);
    RunAdvances(m1, inputs[1..]);
  }

  /** The rotation seen from the outside: the speakers of an undisturbed run
      are the bots after the cursor, in registration order, wrapping around. */
  lemma RunRotation(m: Manager, inputs: seq<TurnInput>)
    requires Valid(m) && Runs(m) && NamedBots(m)
    requires Steady(inputs)
    ensures |Run(m, inputs).1| == |inputs|
    ensures forall j :: 0 <= j < |inputs| ==>
      Run(m, inputs).1[j].speaker == m.order[(m.cursor + 1 + j) % |m.order|]
  {
    RunLength(m, inputs);
    forall j | 0 <= j < |inputs| ensures Run(m, inputs).1[j].speaker == m.order[(m.cursor + 1 + j) % |m.order|] {
      RunSaid(m, inputs, j);
    }
  }

  /** `end_conversation` for the group during the sleep stops the loop: the
      turn's message was the last one and the manager is idle. */
  lemma EndDuringSleepStops(m: Manager, inputs: seq<TurnInput>)
    requires Valid(m) && Runs(m) && NamedBots(m)
    requires inputs != [] && inputs[0].answer.Some? && inputs[0].sent
    requires inputs[0].duringSleep == [EndCommand(m.groupId.value)]
    ensures |Run(m, inputs).1| == 1
    ensures Run(m, inputs).0.active == None
  {
    var m1 := Turn(m, inputs[0].answer, inputs[0].elapsed).0;
    assert m1.active == m.active && m1.groupId == m.groupId;
    assert Apply(m1, inputs[0].duringSleep) == End(m1, m.groupId.value).0;
  }

  /** A `send_message` that raises ends the loop: nothing is delivered, the
      cursor stays advanced and the session stays as it was, still active. */
  lemma SendFailureStops(m: Manager, inputs: seq<TurnInput>)
    requires Valid(m) && Runs(m) && NamedBots(m)
    requires inputs != [] && inputs[0].answer.Some? && !inputs[0].sent && inputs[0].duringSleep == []
    ensures Run(m, inputs).1 == []
    ensures Run(m, inputs).0 == m.(cursor := (m.cursor + 1) % |m.order|)
  {
    var m1 := m.(cursor := (m.cursor + 1) % |m.order|);
    assert m.order[m1.cursor] != "";
    assert Apply(m1, []) == m1;
  }

  /** The test after the sleep is not tied to the turn's group: if the
      conversation is ended and another one is started in a different group
      during the sleep, the loop goes on and its next message goes to the new
      group. */
  lemma ContinuesIntoNewGroup(m: Manager, inputs: seq<TurnInput>, g2: GroupId, b: BotName)
    requires Valid(m) && Runs(m) && NamedBots(m)
    requires g2 != 0 && g2 != m.groupId.value && b in m.order
    requires |inputs| >= 2 && inputs[0].answer.Some? && inputs[1].answer.Some?
    requires inputs[0].sent && inputs[1].sent
    requires inputs[0].duringSleep == [EndCommand(m.groupId.value), StartCommand(g2, b)]
    ensures |Run(m, inputs).1| >= 2
    ensures Run(m, inputs).1[0].chat == m.groupId.value
    ensures Run(m, inputs).1[1].chat == g2
  {
    var m1 := Turn(m, inputs[0].answer, inputs[0].elapsed).0;
    var m2 := Start(End(m1, m.groupId.value).0, g2, b).0;
    assert Apply(m1, inputs[0].duringSleep) == m2 by {
      var cmds := inputs[0].duringSleep;
      assert cmds[1..] == [StartCommand(g2, b)];
      assert cmds[1..][1..] == [];
      assert Apply(m1, cmds) == Apply(ApplyOne(m1, cmds[0]), cmds[1..]);
      assert Apply(ApplyOne(m1, cmds[0]), cmds[1..]) == ApplyOne(ApplyOne(m1, cmds[0]), cmds[1]);
    }
    assert IsActive(m2, g2) && Valid(m2) && Runs(m2) && NamedBots(m2);
    var rest := Run(m2, inputs[1..]);
    assert Turn(m2, inputs[1].answer, inputs[1].elapsed).1.Spoke?;
    assert |rest.1| >= 1 && rest.1[0].chat == g2;
    assert Run(m, inputs).1 == [Run(m, inputs).1[0]] + rest.1;
  }

  /** Line 73 strips what the bot's `AssistantHandler.get_answer` returned; that
      answer is already stripped, so the message sent is exactly the answer. */
  lemma TurnSendsHandlerAnswer(m: Manager, h: Assistant.Handler, prompt: string, created: string, raw: string, elapsed: real)
    requires Runs(m) && NamedBots(m)
    requires Assistant.GetAnswer(h, prompt, created, raw).1.Ok?
    ensures var answer := Assistant.GetAnswer(h, prompt, created, raw).1.value;
      Turn(m, Some(answer), elapsed).1 == Spoke(m.order[(m.cursor + 1) % |m.order|], m.groupId.value, answer, PacingDelay(elapsed))
  {
    var answer := Assistant.GetAnswer(h, prompt, created, raw).1.value;
    StripStripped(answer);
    assert m.order[(m.cursor + 1) % |m.order|] != "";
  }
}
