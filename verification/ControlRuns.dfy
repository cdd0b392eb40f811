/**
  The controls between two samples (world_movement.rs): what a sample holds of the snapshots and
  button events since the one before it.
 */
module ControlRuns {
  import opened Bytes
  import opened Movement

  // ---- The journal ----

  function RecordAll(c: Controls, snapshots: seq<Transition>): Controls {
    if snapshots == [] then c
    else
      var last := snapshots[|snapshots| - 1];
      Record(RecordAll(c, snapshots[..|snapshots| - 1]), last.sequence, last.input, last.reset)
  }

  function Highest(sequence: u64, snapshots: seq<Transition>): u64 {
    if snapshots == [] then sequence
    else
      var before, last := Highest(sequence, snapshots[..|snapshots| - 1]), snapshots[|snapshots| - 1];
      if last.sequence > before then last.sequence else before
  }

  function HeldAfter(input: Input, news: seq<Transition>): Input {
    if news == [] then input else news[|news| - 1].input
  }

  /** The snapshots that were news: numbered above all before them, with another input than the news before them. */
  function News(c: Controls, snapshots: seq<Transition>): (news: seq<Transition>) {
    if snapshots == [] then []
    else
      var before, last := snapshots[..|snapshots| - 1], snapshots[|snapshots| - 1];
      var news := News(c, before);
      news + if last.sequence > Highest(c.inputSequence, before) && last.input != HeldAfter(c.input, news)
             then [last] else []
  }

  function LastOf<T>(values: seq<T>, n: nat): seq<T> {
    if |values| <= n then values else values[|values| - n..]
  }

  /** The journal holds the last 64 of the news, and the count of the others as far as it can count. */
  predicate Holds(begin: Controls, c: Controls, news: seq<Transition>, highest: u64) {
    && c.transitions == LastOf(news, 64)
    && c.coalesced == (if |news| <= 64 then 0 else if |news| - 64 < U64_MAX then |news| - 64 else U64_MAX)
    && c.input == HeldAfter(begin.input, news)
    && c.inputSequence == highest
    && c.buttons == begin.buttons
  }

  lemma RecordHolds(begin: Controls, c: Controls, news: seq<Transition>, s: Transition)
    requires Holds(begin, c, news, c.inputSequence)
    ensures var next := Record(c, s.sequence, s.input, s.reset);
      if s.sequence <= c.inputSequence then next == c
      else Holds(begin, next, if s.input == c.input then news else news + [s], s.sequence)
  {
    if Accepts(c, s.sequence, s.input) { LastSlides(news, s); }
  }

  lemma LastSlides(news: seq<Transition>, s: Transition)
    ensures LastOf(news + [s], 64) == (if |LastOf(news, 64)| == 64 then LastOf(news, 64)[1..] else news) + [s]
  {
    if |news| >= 64 { assert LastOf(news, 64)[1..] == news[|news| - 63..]; }
  }

  /**
    From one sample on, the journal holds the last 64 of the news, in order and as they came, and the
    count of the others; the held input is that of the newest news, and the number the highest seen.
   */
  lemma {:induction false} JournalHoldsNews(c: Controls, snapshots: seq<Transition>)
    requires c.transitions == [] && c.coalesced == 0
    ensures Holds(c, RecordAll(c, snapshots), News(c, snapshots), Highest(c.inputSequence, snapshots))
  {
    if snapshots != [] {
      var before, last := snapshots[..|snapshots| - 1], snapshots[|snapshots| - 1];
      JournalHoldsNews(c, before);
      RecordHolds(c, RecordAll(c, before), News(c, before), last);
      assert News(c, before) + [] == News(c, before);
    }
  }

  // ---- Buttons ----

  datatype ButtonEvent = Use | Attack(pressed: bool) | LetBothGo

  function Press(c: Controls, e: ButtonEvent): Controls {
    match e
    case Use => UsePressed(c)
    case Attack(pressed) => Attacking(c, pressed)
    case LetBothGo => LetGo(c)
  }

  function PressAll(c: Controls, events: seq<ButtonEvent>): Controls {
    if events == [] then c else Press(PressAll(c, events[..|events| - 1]), events[|events| - 1])
  }

  /** Use presses after the last release. */
  function Uses(events: seq<ButtonEvent>): nat {
    if events == [] || events[|events| - 1].LetBothGo? then 0
    else Uses(events[..|events| - 1]) + if events[|events| - 1].Use? then 1 else 0
  }

  /** The attack button as the events leave it. */
  function AttackAfter(held: bool, events: seq<ButtonEvent>): bool {
    if events == [] then held
    else
      match events[|events| - 1]
      case Use => AttackAfter(held, events[..|events| - 1])
      case Attack(pressed) => pressed
      case LetBothGo => false
  }

  /** The attack button was pressed or let go where it was not before, or everything was released. */
  predicate Changes(held: bool, events: seq<ButtonEvent>) {
    exists i :: 0 <= i < |events| && (events[i].LetBothGo? || events[i] == Attack(!held))
  }

  /**
    A sample holds the use presses since the last release or sample, at most 8 of them; the attack
    button as it was left; and whether it changed since the last sample, a release counting as a change.
   */
  lemma {:induction false} ButtonsSampled(c: Controls, events: seq<ButtonEvent>)
    ensures var begin := Sampled(c).0;
      var end := PressAll(begin, events);
      Sampled(end).1.buttons
      == Buttons(AttackAfter(c.buttons.attack, events), Changes(c.buttons.attack, events),
                 if Uses(events) < 8 then Uses(events) else 8, [])
      && end == begin.(buttons := end.buttons)
  {
    if events != [] {
      var held, before, last := c.buttons.attack, events[..|events| - 1], events[|events| - 1];
      ButtonsSampled(c, before);
      ChangesMore(held, before, last);
      assert events == before + [last];
      if !Changes(held, before) { AttackUnchanged(held, before); }
    }
  }

  lemma ChangesMore(held: bool, events: seq<ButtonEvent>, e: ButtonEvent)
    ensures Changes(held, events + [e]) <==> Changes(held, events) || e.LetBothGo? || e == Attack(!held)
  {
    var all := events + [e];
    assert all[|events|] == e && forall i :: 0 <= i < |events| ==> all[i] == events[i];
  }

  lemma {:induction false} AttackUnchanged(held: bool, events: seq<ButtonEvent>)
    requires forall i :: 0 <= i < |events| ==> !events[i].LetBothGo? && events[i] != Attack(!held)
    ensures AttackAfter(held, events) == held
  {
    if events != [] { AttackUnchanged(held, events[..|events| - 1]); }
  }
}
