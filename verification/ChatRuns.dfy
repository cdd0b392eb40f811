/**
  Runs of the chat session: what the window, the offsets and the indices are after any sequence of
  received and sent messages (secure_chat.rs with the receive step of chat_session.rs).
 */
module ChatRuns {
  import opened Wrappers
  import opened Bytes
  import opened SecureChat
  import opened ChatWire

  datatype Event =
    | Receive(index: i32, signature: Option<Signature>, displayed: bool)
    | Send(expired: bool, m: Outgoing, sign: seq<byte> -> Option<Signature>)

  /**
    The session together with what an observer records: the duplicate-free history of signed
    messages, the offsets transmitted, the offsets spent on sends that failed, and the counts of
    accepted and signed messages. A refused message ends the session.
   */
  datatype Ledger = Ledger(chat: Chat, history: seq<Seen>, transmitted: int, lost: int, received: nat, signed: nat,
      open: bool)

  function Begin(rules: Rules): Ledger {
    Ledger(NewChat(rules.capacity), [], 0, 0, 0, 0, true)
  }

  function AfterReceive(l: Ledger, rules: Rules, index: i32, signature: Option<Signature>, displayed: bool): Ledger {
    var (accepted, r) := Accept(l.chat, index, signature, displayed);
    if r.Failure? then l.(chat := accepted, open := false)
    else
      var (after, count) := Standalone(accepted, rules.threshold);
      l.(chat := after,
         history := if signature.Some? then Extend(l.history, Seen(signature.value, displayed)) else l.history,
         transmitted := l.transmitted + if count.Some? then count.value else 0,
         received := l.received + 1)
  }

  function AfterSend(l: Ledger, rules: Rules, expired: bool, m: Outgoing,
      sign: seq<byte> -> Option<Signature>): Ledger {
    var (after, r) := Prepare(l.chat, rules, expired, m, sign);
    match r
    case Success(p) => l.(chat := after, transmitted := l.transmitted + p.update.offset, signed := l.signed + 1)
    case Failure(_) => l.(chat := after, lost := l.lost + (l.chat.tracker.offset - after.tracker.offset))
  }

  function Step(l: Ledger, rules: Rules, e: Event): Ledger {
    if !l.open then l
    else
      match e
      case Receive(index, signature, displayed) => AfterReceive(l, rules, index, signature, displayed)
      case Send(expired, m, sign) => AfterSend(l, rules, expired, m, sign)
  }

  function Run(l: Ledger, rules: Rules, events: seq<Event>): Ledger
    decreases |events|
  {
    if events == [] then l else Run(Step(l, rules, events[0]), rules, events[1..])
  }

  /** The rules in use have a window, and a threshold that leaves room below the integer limit. */
  predicate Usable(rules: Rules) {
    rules.capacity > 0 && 0 <= rules.threshold < I32_MAX
  }

  predicate Balanced(l: Ledger, rules: Rules) {
    && l.chat.tracker.entries == Window(l.history, rules.capacity)
    && l.chat.tracker.last == (if l.history == [] then None else Some(l.history[|l.history| - 1].signature))
    && 0 <= l.chat.tracker.offset <= rules.threshold
    && l.transmitted + l.chat.tracker.offset + l.lost == |l.history|
    && l.transmitted >= 0 && l.lost >= 0
    && l.chat.nextIncoming == l.received
    && l.chat.nextOutgoing == l.signed
  }

  lemma NoteKeepsWindow(t: Tracker, history: seq<Seen>, capacity: nat, m: Seen)
    requires capacity > 0 && t.entries == Window(history, capacity) && t.offset < I32_MAX
    requires t.last == if history == [] then None else Some(history[|history| - 1].signature)
    ensures var (after, r) := Note(t, m);
      var extended := Extend(history, m);
      && r.Success?
      && after.entries == Window(extended, capacity)
      && after.last == Some(extended[|extended| - 1].signature)
      && after.offset - t.offset == |extended| - |history|
  {
    WindowSlides(history, m, capacity);
  }

  lemma ReceiveKeeps(l: Ledger, rules: Rules, index: i32, signature: Option<Signature>, displayed: bool)
    requires Usable(rules) && Balanced(l, rules)
    ensures Balanced(AfterReceive(l, rules, index, signature, displayed), rules)
  {
    if signature.Some? {
      NoteKeepsWindow(l.chat.tracker, l.history, rules.capacity, Seen(signature.value, displayed));
    }
  }

  lemma StepKeeps(l: Ledger, rules: Rules, e: Event)
    requires Usable(rules) && Balanced(l, rules)
    ensures Balanced(Step(l, rules, e), rules)
  {
    match e
    case Receive(index, signature, displayed) => ReceiveKeeps(l, rules, index, signature, displayed);
    case Send(_, _, _) =>
  }

  lemma {:induction false} RunKeeps(l: Ledger, rules: Rules, events: seq<Event>)
    requires Usable(rules) && Balanced(l, rules)
    ensures Balanced(Run(l, rules, events), rules)
    decreases |events|
  {
    if events != [] {
      StepKeeps(l, rules, events[0]);
      RunKeeps(Step(l, rules, events[0]), rules, events[1..]);
    }
  }

  lemma BeginBalanced(rules: Rules)
    requires Usable(rules)
    ensures Balanced(Begin(rules), rules)
  {
    assert Blanks(rules.capacity) + Entries([]) == Blanks(rules.capacity);
  }

  /**
    After every run: the window is the end of the duplicate-free history, every signed message is
    accounted for by an offset sent, pending or lost, the pending offset never exceeds the threshold,
    and both indices count without gaps.
   */
  lemma SessionRefinesHistory(rules: Rules, events: seq<Event>)
    requires Usable(rules)
    ensures Balanced(Run(Begin(rules), rules, events), rules)
  {
    BeginBalanced(rules);
    RunKeeps(Begin(rules), rules, events);
  }

  /** The offset never overflows: a reachable session accepts exactly the next index, below the index limit. */
  lemma OffsetNeverOverflows(rules: Rules, events: seq<Event>, index: i32, signature: Option<Signature>,
      displayed: bool)
    requires Usable(rules)
    ensures var end := Run(Begin(rules), rules, events);
      Accept(end.chat, index, signature, displayed).1.Success? <==> index == end.received < I32_MAX
  {
    SessionRefinesHistory(rules, events);
  }

  /** The signature is one of the form of the context. */
  ghost predicate Signs(sign: seq<byte> -> Option<Signature>, c: SigningContext, signature: Signature) {
    exists input :: IsSigningInput(c, input) && sign(input) == Some(signature)
  }

  /** Every update sent shows exactly the displayed entries of the window, and the signature covers their list. */
  lemma UpdateShowsWindow(rules: Rules, events: seq<Event>, expired: bool, m: Outgoing,
      sign: seq<byte> -> Option<Signature>)
    requires Usable(rules)
    ensures var end := Run(Begin(rules), rules, events);
      var r := Prepare(end.chat, rules, expired, m, sign).1;
      r.Success? ==>
        && rules.capacity == ACKNOWLEDGED_ENTRIES
        && var shown := Displayed(Window(end.history, ACKNOWLEDGED_ENTRIES));
        && BitsMatch(r.value.update.acknowledged, Window(end.history, ACKNOWLEDGED_ENTRIES))
        && r.value.update.checksum == Checksum(shown)
        && r.value.update.checksum != 0
        && r.value.update.offset == |end.history| - end.transmitted - end.lost
        && end.chat.nextOutgoing == end.signed
        && Signs(sign, SigningContext(rules.chainVersion, m.sender, m.session, end.chat.nextOutgoing, m.message,
                                      m.timestampMillis, m.salt, shown), r.value.signature)
  {
    SessionRefinesHistory(rules, events);
    var end := Run(Begin(rules), rules, events);
    var r := Prepare(end.chat, rules, expired, m, sign).1;
    if r.Success? {
      var shown := Displayed(Window(end.history, ACKNOWLEDGED_ENTRIES));
      AcknowledgedBytesMatch(end.chat.tracker.entries);
      var context := Context(rules, end.chat.nextOutgoing, m, shown);
      SigningInputForm(context, SigningInput(context).value);
    }
  }

  /**
    After every run, a received message is followed by an acknowledgement of its own exactly if it
    leaves more signed messages unacknowledged than the threshold, and that covers them all.
   */
  lemma AcknowledgesAlone(rules: Rules, events: seq<Event>, index: i32, signature: Option<Signature>, displayed: bool)
    requires Usable(rules)
    ensures var end := Run(Begin(rules), rules, events);
      var after := AfterReceive(end, rules, index, signature, displayed);
      var waiting := |after.history| - end.transmitted - end.lost;
      after.open && end.open ==>
        && after.history == (if signature.Some? then Extend(end.history, Seen(signature.value, displayed))
                             else end.history)
        && after.transmitted == end.transmitted + (if waiting > rules.threshold then waiting else 0)
        && after.lost == end.lost
  {
    SessionRefinesHistory(rules, events);
    var end := Run(Begin(rules), rules, events);
    if signature.Some? {
      NoteKeepsWindow(end.chat.tracker, end.history, rules.capacity, Seen(signature.value, displayed));
    }
  }

  // ---- Exactly when offsets are conserved ----

  /** The message is too long to sign, the indices are used up, or the certificate does not sign. */
  predicate CannotSign(c: Chat, rules: Rules, m: Outgoing, sign: seq<byte> -> Option<Signature>)
    requires |c.tracker.entries| == ACKNOWLEDGED_ENTRIES
  {
    || |m.message| > I32_MAX
    || c.nextOutgoing == I32_MAX
    || sign(SigningInput(Context(rules, c.nextOutgoing, m, Displayed(c.tracker.entries))).value).None?
  }

  /** The send gets as far as an update, with an offset pending, and then cannot sign. */
  predicate Wastes(l: Ledger, rules: Rules, e: Event) {
    && l.open && e.Send? && !e.expired
    && |l.chat.tracker.entries| == ACKNOWLEDGED_ENTRIES
    && l.chat.tracker.offset > 0
    && CannotSign(l.chat, rules, e.m, e.sign)
  }

  predicate NeverWastes(l: Ledger, rules: Rules, events: seq<Event>)
    decreases |events|
  {
    events == [] || (!Wastes(l, rules, events[0]) && NeverWastes(Step(l, rules, events[0]), rules, events[1..]))
  }

  lemma StepLoses(l: Ledger, rules: Rules, e: Event)
    requires Usable(rules) && Balanced(l, rules)
    ensures Step(l, rules, e).lost >= l.lost
    ensures Step(l, rules, e).lost == l.lost <==> !Wastes(l, rules, e)
  {
  }

  lemma {:induction false} RunLoses(l: Ledger, rules: Rules, events: seq<Event>)
    requires Usable(rules) && Balanced(l, rules)
    ensures Run(l, rules, events).lost >= l.lost
    ensures Run(l, rules, events).lost == l.lost <==> NeverWastes(l, rules, events)
    decreases |events|
  {
    if events != [] {
      StepLoses(l, rules, events[0]);
      StepKeeps(l, rules, events[0]);
      RunLoses(Step(l, rules, events[0]), rules, events[1..]);
    }
  }

  /**
    The offsets transmitted and the pending one add up to the number of signed messages if and only
    if no send ever failed after its update was generated with a pending offset.
   */
  lemma OffsetsConserved(rules: Rules, events: seq<Event>)
    requires Usable(rules)
    ensures var end := Run(Begin(rules), rules, events);
      end.transmitted + end.chat.tracker.offset == |end.history| <==> NeverWastes(Begin(rules), rules, events)
  {
    BeginBalanced(rules);
    RunKeeps(Begin(rules), rules, events);
    RunLoses(Begin(rules), rules, events);
  }

  /** One signed message received, then a send whose signing fails: its acknowledgement is gone. */
  lemma FailedSigningLosesOffset(signature: Signature, m: Outgoing)
    ensures var rules := Rules(1, 20, 64);
      var end := Run(Begin(rules), rules, [Receive(0, Some(signature), true), Send(false, m, _ => None)]);
      |end.history| == 1 && end.transmitted == 0 && end.chat.tracker.offset == 0
  {
    var rules := Rules(1, 20, 64);
    var send := Send(false, m, _ => None);
    var events := [Receive(0, Some(signature), true), send];
    var first := Step(Begin(rules), rules, events[0]);
    assert events[1..] == [send] && [send][1..] == [];
    assert |first.history| == 1 && first.chat.tracker.offset == 1;
    assert Run(first, rules, [send]) == Step(first, rules, send);
    assert AfterSend(first, rules, false, m, send.sign).chat.tracker.offset == 0;
  }
}
