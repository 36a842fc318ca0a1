// The quiz session: the state one play-through owns, the handlers that
// react to the player's clicks, the deferred step that runs when the
// feedback delay has elapsed, and the invariants that tie score, history
// and lock together.

module Session {
  import opened Types
  import opened Constants

  /** The fixed message shown after a wrong decision. */
  const RetryMessage: string := "حاول مرة أخرى"

  /** The sentences the ordering screen offers, hard-coded by the view. */
  const OrderingDisplayItems: seq<string> := ["إيمان ترفع يدها", "إيمان تجيب", "المعلم يسأل", "المعلم يختارها"]

  /** Which feedback overlay is shown. */
  datatype Feedback = NoFeedback | CorrectFeedback | WrongFeedback

  /** The two columns of a matching question. */
  datatype Side = Left | Right

  /** What the scheduled advance captured when a decision was taken: the
      decision, the new history, the question index and the score as it was
      before the decision. At most one is pending at a time. */
  datatype Decision = Decision(isCorrect: bool, newHistory: seq<bool>, idx: nat, scoreBefore: int)

  /** The terminal event handed to the caller: final score and history. */
  datatype Report = Report(finalScore: int, history: seq<bool>)

  datatype SessionState = SessionState(
    currentIdx: nat,
    score: int,
    history: seq<bool>,
    showFeedback: Feedback,
    feedbackMsg: string,
    isLocked: bool,
    orderedItems: seq<string>,
    matchedPairs: set<string>,
    selectedLeft: Option<string>,
    pending: Option<Decision>)

  /** The result of the deferred step: the next state and, on the last
      question, the report. */
  datatype Advanced = Advanced(next: SessionState, ended: Option<Report>)

  function Initial(): SessionState
  {
    SessionState(0, 0, [], NoFeedback, "", false, [], {}, None, None)
  }

  /** The number of correct decisions in a history. */
  function CountTrue(h: seq<bool>): (n: nat)
    ensures n <= |h|
  {
    if h == [] then 0 else CountTrue(h[..|h| - 1]) + (if h[|h| - 1] then 1 else 0)
  }

  /** Every decision was correct exactly when the count is the full length. */
  lemma {:induction false} CountTrueFull(h: seq<bool>)
    ensures CountTrue(h) == |h| <==> forall i :: 0 <= i < |h| ==> h[i]
  {
    if h != [] {
      var init := h[..|h| - 1];
      CountTrueFull(init);
      assert forall i :: 0 <= i < |init| ==> init[i] == h[i];
    }
  }

  lemma CountTrueAppend(h: seq<bool>, b: bool)
    ensures CountTrue(h + [b]) == CountTrue(h) + (if b then 1 else 0)
  {
    assert (h + [b])[..|h|] == h;
  }

  /** The message index drawn from a random number in [0, 1): the pool is
      non-empty, so the index is always in range. */
  function PickIndex(rand: real): (i: nat)
    requires 0.0 <= rand < 1.0
    ensures i < |FeedbackMessages|
  {
    (rand * (|FeedbackMessages| as real)).Floor
  }

  // ---------------------------------------------------------------------
  // Answer rules

  /** A direct answer is correct exactly when it is strictly equal to the
      question's correct answer: same kind of value, same string or boolean. */
  function IsOptionCorrect(q: Question, a: Answer): (ok: bool)
    ensures TypeOf(q) in {Ordering, Matching} ==> !ok
    ensures q.TrueFalseQuestion? ==> (ok <==> a == Flag(q.correctFlag))
    ensures q.MultipleChoiceQuestion? || q.ImageChoiceQuestion? ==> (ok <==> a == Text(q.correctText))
  {
    CorrectAnswer(q) == Some(a)
  }

  /** `items` with every occurrence of `x` filtered out, in order. */
  function Without(items: seq<string>, x: string): (r: seq<string>)
    ensures x !in r
    ensures forall y :: y != x ==> (y in r <==> y in items)
    ensures x !in items ==> r == items
    ensures NoDuplicates(items) ==> NoDuplicates(r) && (x in items ==> |r| == |items| - 1)
  {
    if items == [] then []
    else
      var rest := Without(items[1..], x);
      assert NoDuplicates(items) ==> NoDuplicates(items[1..]) && items[0] !in items[1..];
      if items[0] == x then rest else [items[0]] + rest
  }

  /** Filtering a chosen item out of a selection without repeats leaves the
      items before it and the items after it, each in their order. */
  lemma {:induction false} WithoutKeepsOrder(items: seq<string>, i: nat)
    requires NoDuplicates(items) && i < |items|
    ensures Without(items, items[i]) == items[..i] + items[i + 1..]
  {
    var x := items[i];
    if i == 0 {
      assert Without(items, x) == Without(items[1..], x);
      assert x !in items[1..];
      assert items[..0] + items[1..] == items[1..];
    } else {
      assert items[0] != x;
      assert Without(items, x) == [items[0]] + Without(items[1..], x);
      assert NoDuplicates(items[1..]);
      assert items[1..][i - 1] == x;
      WithoutKeepsOrder(items[1..], i - 1);
      assert items[1..][..i - 1] == items[1..i];
      assert items[1..][i..] == items[i + 1..];
      assert [items[0]] + items[1..i] == items[..i];
    }
  }

  /** An ordering click: an item already chosen is taken out, the others
      staying in their order; any other item is put at the end. */
  function ToggleOrder(items: seq<string>, item: string): (r: seq<string>)
    ensures item in r <==> item !in items
    ensures forall y :: y != item ==> (y in r <==> y in items)
    ensures item !in items ==> r == items + [item]
    ensures NoDuplicates(items) ==>
      forall i :: 0 <= i < |items| && items[i] == item ==> r == items[..i] + items[i + 1..]
    ensures NoDuplicates(items) ==> NoDuplicates(r)
  {
    if item in items then
      assert NoDuplicates(items) ==>
        forall i :: 0 <= i < |items| && items[i] == item ==> Without(items, item) == items[..i] + items[i + 1..]
      by {
        if NoDuplicates(items) {
          forall i | 0 <= i < |items| && items[i] == item
            ensures Without(items, item) == items[..i] + items[i + 1..]
          {
            WithoutKeepsOrder(items, i);
          }
        }
      }
      Without(items, item)
    else items + [item]
  }

  lemma {:induction false} WithoutAppended(items: seq<string>, x: string)
    requires x !in items
    ensures Without(items + [x], x) == items
  {
    if items != [] {
      assert (items + [x])[1..] == items[1..] + [x];
      WithoutAppended(items[1..], x);
    }
  }

  /** Choosing an item and then clicking it again gives back the selection
      as it was. */
  lemma ToggleTwiceRestores(items: seq<string>, item: string)
    requires item !in items
    ensures ToggleOrder(ToggleOrder(items, item), item) == items
  {
    WithoutAppended(items, item);
  }

  /** Starting from an item that is already chosen, two clicks take it out
      and put it back at the end, so the selection comes back only when the
      item was already last. */
  lemma ToggleTwiceMovesChosenItem(items: seq<string>, i: nat)
    requires NoDuplicates(items) && i < |items|
    ensures ToggleOrder(ToggleOrder(items, items[i]), items[i]) == items[..i] + items[i + 1..] + [items[i]]
    ensures ToggleOrder(ToggleOrder(items, items[i]), items[i]) == items <==> i == |items| - 1
  {
    var x := items[i];
    var once := items[..i] + items[i + 1..];
    assert ToggleOrder(items, x) == once;
    assert x !in once;
    var twice := once + [x];
    if i == |items| - 1 {
      assert twice == items;
    } else {
      assert twice[i] == items[i + 1] != items[i];
    }
  }

  // ---------------------------------------------------------------------
  // Handlers

  /** A decision: lock, append to the history, add 10 when correct, show the
      feedback and schedule the advance. */
  function Decide(s: SessionState, isCorrect: bool, rand: real): (r: SessionState)
    requires 0.0 <= rand < 1.0
    ensures r.isLocked && r.history == s.history + [isCorrect]
    ensures r.score == s.score + (if isCorrect then PointsPerQuestion else 0)
    ensures r.score - PointsPerQuestion * CountTrue(r.history) == s.score - PointsPerQuestion * CountTrue(s.history)
    ensures r.currentIdx == s.currentIdx && r.orderedItems == s.orderedItems
    ensures r.matchedPairs == s.matchedPairs && r.selectedLeft == s.selectedLeft
    ensures isCorrect ==> r.showFeedback == CorrectFeedback && r.feedbackMsg in FeedbackMessages
    ensures !isCorrect ==> r.showFeedback == WrongFeedback && r.feedbackMsg == RetryMessage
    ensures r.pending == Some(Decision(isCorrect, r.history, s.currentIdx, s.score))
  {
    CountTrueAppend(s.history, isCorrect);
    var newHistory := s.history + [isCorrect];
    s.(isLocked := true,
       history := newHistory,
       score := if isCorrect then s.score + PointsPerQuestion else s.score,
       feedbackMsg := if isCorrect then FeedbackMessages[PickIndex(rand)] else RetryMessage,
       showFeedback := if isCorrect then CorrectFeedback else WrongFeedback,
       pending := Some(Decision(isCorrect, newHistory, s.currentIdx, s.score)))
  }

  /** A click on an option (multiple choice, true/false, image choice). */
  function ChooseOption(qs: seq<Question>, s: SessionState, a: Answer, rand: real): (r: SessionState)
    requires s.currentIdx < |qs| && 0.0 <= rand < 1.0
    ensures r.currentIdx == s.currentIdx
    ensures r.orderedItems == s.orderedItems && r.matchedPairs == s.matchedPairs && r.selectedLeft == s.selectedLeft
    ensures s.isLocked ==> r == s
    ensures !s.isLocked ==> r.isLocked && r.history == s.history + [IsOptionCorrect(qs[s.currentIdx], a)]
    ensures r.score - PointsPerQuestion * CountTrue(r.history) == s.score - PointsPerQuestion * CountTrue(s.history)
  {
    if s.isLocked then s
    else Decide(s, IsOptionCorrect(qs[s.currentIdx], a), rand)
  }

  /** A click on an ordering item: toggle it, and decide once the selection
      is as long as the correct order. */
  function ClickOrderItem(qs: seq<Question>, s: SessionState, item: string, rand: real): (r: SessionState)
    requires s.currentIdx < |qs| && 0.0 <= rand < 1.0
    ensures r.currentIdx == s.currentIdx
    ensures r.matchedPairs == s.matchedPairs && r.selectedLeft == s.selectedLeft
    ensures s.isLocked ==> r == s
    ensures !s.isLocked ==> r.orderedItems == ToggleOrder(s.orderedItems, item)
    ensures !s.isLocked ==>
      (r.isLocked <==> CorrectOrderOf(qs[s.currentIdx]).Some? && |r.orderedItems| == |CorrectOrderOf(qs[s.currentIdx]).value|)
    ensures !s.isLocked && r.isLocked ==>
      r.history == s.history + [r.orderedItems == CorrectOrderOf(qs[s.currentIdx]).value]
    ensures !r.isLocked ==> r.history == s.history && r.score == s.score
    ensures r.score - PointsPerQuestion * CountTrue(r.history) == s.score - PointsPerQuestion * CountTrue(s.history)
  {
    if s.isLocked then s
    else
      var newOrder := ToggleOrder(s.orderedItems, item);
      var s1 := s.(orderedItems := newOrder);
      match CorrectOrderOf(qs[s.currentIdx])
      case Some(c) => if |newOrder| == |c| then Decide(s1, newOrder == c, rand) else s1
      case None => s1
  }

  /** A click on a matching item. A left click records the pending pair id;
      a right click without a pending id (the empty id counts as none) does
      nothing; a right click on the pending id matches that pair, clears the
      pending id and decides "correct" once every pair is matched; any other
      right click only clears the pending id. */
  function ClickMatchItem(qs: seq<Question>, s: SessionState, side: Side, pairId: string, rand: real): (r: SessionState)
    requires s.currentIdx < |qs| && 0.0 <= rand < 1.0
    ensures r.currentIdx == s.currentIdx && r.orderedItems == s.orderedItems
    ensures s.isLocked ==> r == s
    ensures r.history == s.history || r.history == s.history + [true]
    ensures r.score - PointsPerQuestion * CountTrue(r.history) == s.score - PointsPerQuestion * CountTrue(s.history)
    ensures !s.isLocked && side == Left ==> r == s.(selectedLeft := Some(pairId))
    ensures !s.isLocked && side == Right && (s.selectedLeft == None || s.selectedLeft == Some("")) ==> r == s
    ensures !s.isLocked && side == Right && s.selectedLeft.Some? && s.selectedLeft.value !in {"", pairId} ==>
      r == s.(selectedLeft := None)
    ensures !s.isLocked && side == Right && s.selectedLeft == Some(pairId) && pairId != "" ==>
      && r.matchedPairs == s.matchedPairs + {pairId}
      && r.selectedLeft == None
      && (r.isLocked <==> MatchingPairsOf(qs[s.currentIdx]).Some? && |r.matchedPairs| == |MatchingPairsOf(qs[s.currentIdx]).value|)
  {
    if s.isLocked then s
    else if side == Left then s.(selectedLeft := Some(pairId))
    else if s.selectedLeft == None || s.selectedLeft == Some("") then s
    else if s.selectedLeft == Some(pairId) then
      var newMatches := s.matchedPairs + {pairId};
      var s1 := s.(matchedPairs := newMatches, selectedLeft := None);
      match MatchingPairsOf(qs[s.currentIdx])
      case Some(ps) => if |newMatches| == |ps| then Decide(s1, true, rand) else s1
      case None => s1
    else s.(selectedLeft := None)
  }

  /** The clearing the deferred step performs before it moves on. */
  function Cleared(s: SessionState): SessionState
  {
    s.(showFeedback := NoFeedback, isLocked := false, orderedItems := [], matchedPairs := {},
       selectedLeft := None, feedbackMsg := "", pending := None)
  }

  /** The deferred step, as written: clear the interaction state and the
      feedback, unlock, then move to the next question or report the final
      score (the score captured before the decision plus 10 if it was
      correct) and the new history. */
  function TimerStepAsWritten(qs: seq<Question>, s: SessionState): (t: Advanced)
    ensures s.pending.None? ==> t == Advanced(s, None)
    ensures s.pending.Some? ==> !t.next.isLocked
    ensures s.pending.Some? ==> (t.ended.Some? <==> s.pending.value.idx >= |qs| - 1)
    ensures s.pending.Some? && t.ended.Some? ==>
      t.ended.value == Report(ReportedScore(s.pending.value), s.pending.value.newHistory)
  {
    match s.pending
    case None => Advanced(s, None)
    case Some(d) =>
      if d.idx < |qs| - 1 then Advanced(Cleared(s).(currentIdx := s.currentIdx + 1), None)
      else Advanced(Cleared(s), Some(Report(ReportedScore(d), d.newHistory)))
  }

  /** The final score the deferred step reports: the score captured before
      the decision, plus 10 when the decision was correct. */
  function ReportedScore(d: Decision): int
  {
    if d.isCorrect then d.scoreBefore + PointsPerQuestion else d.scoreBefore
  }

  /** The deferred step with the lock kept after the final report, so that
      the finished session accepts no further decision. */
  function TimerStep(qs: seq<Question>, s: SessionState): (t: Advanced)
    ensures s.pending.None? ==> t == Advanced(s, None)
    ensures s.pending.Some? ==>
      && t.next.orderedItems == [] && t.next.matchedPairs == {} && t.next.selectedLeft == None
      && t.next.showFeedback == NoFeedback && t.next.feedbackMsg == "" && t.next.pending == None
      && t.next.history == s.history && t.next.score == s.score
      && (t.ended.Some? <==> s.pending.value.idx >= |qs| - 1)
      && (t.ended.Some? ==> t.ended.value == Report(ReportedScore(s.pending.value), s.pending.value.newHistory))
      && (t.next.isLocked <==> t.ended.Some?)
      && (t.ended.None? ==> t.next.currentIdx == s.currentIdx + 1)
  {
    var t := TimerStepAsWritten(qs, s);
    if t.ended.Some? then t.(next := t.next.(isLocked := true)) else t
  }

  // ---------------------------------------------------------------------
  // Events and the session invariant

  /** What can happen to a session: a click of one of the three kinds (each
      carrying the value the random source would give), or the timer. */
  datatype Event =
    | OptionChosen(answer: Answer, rand: real)
    | OrderItemClicked(item: string, rand: real)
    | MatchItemClicked(side: Side, pairId: string, rand: real)
    | TimerFired

  predicate EventOk(e: Event)
  {
    e.TimerFired? || 0.0 <= e.rand < 1.0
  }

  function Step(qs: seq<Question>, s: SessionState, e: Event): Advanced
    requires s.currentIdx < |qs| && EventOk(e)
  {
    match e
    case OptionChosen(a, rand) => Advanced(ChooseOption(qs, s, a, rand), None)
    case OrderItemClicked(item, rand) => Advanced(ClickOrderItem(qs, s, item, rand), None)
    case MatchItemClicked(side, pairId, rand) => Advanced(ClickMatchItem(qs, s, side, pairId, rand), None)
    case TimerFired => TimerStep(qs, s)
  }

  /** The pending advance agrees with the state it will act on. */
  ghost predicate Captured(s: SessionState, d: Decision)
  {
    && d.newHistory == s.history
    && d.idx == s.currentIdx
    && |s.history| == d.idx + 1
    && s.history[d.idx] == d.isCorrect
    && s.score == d.scoreBefore + (if d.isCorrect then PointsPerQuestion else 0)
    && (d.isCorrect ==> s.showFeedback == CorrectFeedback && s.feedbackMsg in FeedbackMessages)
    && (!d.isCorrect ==> s.showFeedback == WrongFeedback && s.feedbackMsg == RetryMessage)
  }

  /** The session invariant: the index is in range, the score is 10 per
      correct entry, there is one history entry per decided question, the
      ordering selection has no repeats, a pending advance exists only while
      locked and agrees with the state, and a lock without a pending advance
      happens only after the last question's report. */
  ghost predicate Inv(qs: seq<Question>, s: SessionState)
  {
    && 0 < |qs|
    && s.currentIdx < |qs|
    && s.score == PointsPerQuestion * CountTrue(s.history)
    && NoDuplicates(s.orderedItems)
    && |s.history| == s.currentIdx + (if s.isLocked then 1 else 0)
    && (s.pending.None? ==> s.showFeedback == NoFeedback && s.feedbackMsg == "")
    && (s.pending.None? && s.isLocked ==> s.currentIdx == |qs| - 1)
    && (s.pending.Some? ==> s.isLocked && Captured(s, s.pending.value))
  }

  /** The session has reported and accepts nothing more. */
  predicate Terminal(s: SessionState)
  {
    s.isLocked && s.pending.None?
  }

  /** A report covers every question and scores 10 per correct entry. */
  ghost predicate ReportSound(qs: seq<Question>, r: Report)
  {
    && |r.history| == |qs|
    && r.finalScore == PointsPerQuestion * CountTrue(r.history)
    && 0 <= r.finalScore <= PointsPerQuestion * |qs|
  }

  lemma InitialInv(qs: seq<Question>)
    requires 0 < |qs|
    ensures Inv(qs, Initial()) && !Terminal(Initial())
  {
  }

  lemma DecidePreservesInv(qs: seq<Question>, s: SessionState, isCorrect: bool, rand: real)
    requires Inv(qs, s) && !s.isLocked && 0.0 <= rand < 1.0
    ensures Inv(qs, Decide(s, isCorrect, rand))
  {
    var r := Decide(s, isCorrect, rand);
    CountTrueAppend(s.history, isCorrect);
    assert r.history[r.currentIdx] == isCorrect;
  }

  lemma ChooseOptionPreservesInv(qs: seq<Question>, s: SessionState, a: Answer, rand: real)
    requires Inv(qs, s) && 0.0 <= rand < 1.0
    ensures Inv(qs, ChooseOption(qs, s, a, rand))
  {
    if !s.isLocked {
      DecidePreservesInv(qs, s, IsOptionCorrect(qs[s.currentIdx], a), rand);
    }
  }

  lemma ClickOrderItemPreservesInv(qs: seq<Question>, s: SessionState, item: string, rand: real)
    requires Inv(qs, s) && 0.0 <= rand < 1.0
    ensures Inv(qs, ClickOrderItem(qs, s, item, rand))
  {
    if !s.isLocked {
      var newOrder := ToggleOrder(s.orderedItems, item);
      var s1 := s.(orderedItems := newOrder);
      assert Inv(qs, s1);
      match CorrectOrderOf(qs[s.currentIdx])
      case Some(c) =>
        if |newOrder| == |c| {
          DecidePreservesInv(qs, s1, newOrder == c, rand);
        }
      case None =>
    }
  }

  lemma ClickMatchItemPreservesInv(qs: seq<Question>, s: SessionState, side: Side, pairId: string, rand: real)
    requires Inv(qs, s) && 0.0 <= rand < 1.0
    ensures Inv(qs, ClickMatchItem(qs, s, side, pairId, rand))
  {
    if !s.isLocked && side == Right && s.selectedLeft == Some(pairId) && pairId != "" {
      var s1 := s.(matchedPairs := s.matchedPairs + {pairId}, selectedLeft := None);
      assert Inv(qs, s1);
      match MatchingPairsOf(qs[s.currentIdx])
      case Some(ps) =>
        if |s1.matchedPairs| == |ps| {
          DecidePreservesInv(qs, s1, true, rand);
        }
      case None =>
    }
  }

  /** The deferred step keeps the invariant; when it reports, the report is
      sound and the session is over. */
  lemma TimerStepPreservesInv(qs: seq<Question>, s: SessionState)
    requires Inv(qs, s)
    ensures Inv(qs, TimerStep(qs, s).next)
    ensures TimerStep(qs, s).ended.Some? ==>
      && TimerStep(qs, s).ended.value == Report(s.score, s.history)
      && ReportSound(qs, TimerStep(qs, s).ended.value) && Terminal(TimerStep(qs, s).next)
  {
    match s.pending
    case None =>
    case Some(d) =>
      var t := TimerStep(qs, s);
      if t.ended.Some? {
        assert t.ended.value.history == s.history;
        assert t.ended.value.finalScore == s.score;
      }
  }

  /** Every step keeps the invariant, a report is sound and ends the session,
      and a finished session ignores every event. */
  lemma StepPreservesInv(qs: seq<Question>, s: SessionState, e: Event)
    requires Inv(qs, s) && EventOk(e)
    ensures Inv(qs, Step(qs, s, e).next)
    ensures Step(qs, s, e).ended.Some? ==>
      && Step(qs, s, e).ended.value == Report(s.score, s.history)
      && Step(qs, s, e).next.score == s.score && Step(qs, s, e).next.history == s.history
      && ReportSound(qs, Step(qs, s, e).ended.value) && Terminal(Step(qs, s, e).next)
    ensures Terminal(s) ==> Step(qs, s, e) == Advanced(s, None)
  {
    match e
    case OptionChosen(a, rand) => ChooseOptionPreservesInv(qs, s, a, rand);
    case OrderItemClicked(item, rand) => ClickOrderItemPreservesInv(qs, s, item, rand);
    case MatchItemClicked(side, pairId, rand) => ClickMatchItemPreservesInv(qs, s, side, pairId, rand);
    case TimerFired => TimerStepPreservesInv(qs, s);
  }

  // ---------------------------------------------------------------------
  // Whole sessions

  datatype Run = Run(final: SessionState, reports: seq<Report>)

  predicate EventsOk(es: seq<Event>)
  {
    forall i :: 0 <= i < |es| ==> EventOk(es[i])
  }

  /** The state after a sequence of events and the reports it produced. */
  ghost function RunEvents(qs: seq<Question>, s: SessionState, es: seq<Event>): Run
    requires Inv(qs, s) && EventsOk(es)
    decreases |es|
  {
    if es == [] then Run(s, [])
    else
      StepPreservesInv(qs, s, es[0]);
      var t := Step(qs, s, es[0]);
      var rest := RunEvents(qs, t.next, es[1..]);
      Run(rest.final, (if t.ended.Some? then [t.ended.value] else []) + rest.reports)
  }

  lemma {:induction false} RunKeepsInv(qs: seq<Question>, s: SessionState, es: seq<Event>)
    requires Inv(qs, s) && EventsOk(es)
    ensures Inv(qs, RunEvents(qs, s, es).final)
    ensures forall k :: 0 <= k < |RunEvents(qs, s, es).reports| ==> ReportSound(qs, RunEvents(qs, s, es).reports[k])
    ensures forall k :: 0 <= k < |RunEvents(qs, s, es).reports| ==>
      RunEvents(qs, s, es).reports[k] == Report(RunEvents(qs, s, es).final.score, RunEvents(qs, s, es).final.history)
    ensures |RunEvents(qs, s, es).reports| <= (if Terminal(s) then 0 else 1)
    ensures Terminal(s) ==> RunEvents(qs, s, es).final == s
    decreases |es|
  {
    if es != [] {
      StepPreservesInv(qs, s, es[0]);
      var t := Step(qs, s, es[0]);
      RunKeepsInv(qs, t.next, es[1..]);
    }
  }

  /** Whatever the player does, a session started afresh reports at most
      once, and the report has one entry per question and 10 points per
      correct entry. */
  lemma RunReportsAtMostOnce(qs: seq<Question>, es: seq<Event>)
    requires 0 < |qs| && EventsOk(es)
    ensures Inv(qs, Initial())
    ensures |RunEvents(qs, Initial(), es).reports| <= 1
    ensures forall r :: r in RunEvents(qs, Initial(), es).reports ==> ReportSound(qs, r)
    ensures forall r :: r in RunEvents(qs, Initial(), es).reports ==>
      r == Report(RunEvents(qs, Initial(), es).final.score, RunEvents(qs, Initial(), es).final.history)
  {
    InitialInv(qs);
    RunKeepsInv(qs, Initial(), es);
  }

  // ---------------------------------------------------------------------
  // Reaching a decision

  /** Clicking the items of `items` one after the other. */
  function OrderClicks(items: seq<string>, rand: real): (es: seq<Event>)
    ensures |es| == |items|
    ensures forall i :: 0 <= i < |items| ==> es[i] == OrderItemClicked(items[i], rand)
    ensures 0.0 <= rand < 1.0 ==> EventsOk(es)
  {
    if items == [] then [] else [OrderItemClicked(items[0], rand)] + OrderClicks(items[1..], rand)
  }

  /** On an ordering question, clicking a full-length sequence without
      repeats, item by item, decides the question once, and the decision is
      "correct" exactly when the sequence is the correct order. */
  lemma {:induction false} ClickingSequenceDecides(qs: seq<Question>, s: SessionState, p: seq<string>, k: nat, rand: real)
    requires Inv(qs, s) && !s.isLocked && 0.0 <= rand < 1.0
    requires qs[s.currentIdx].OrderingQuestion?
    requires NoDuplicates(p) && |p| == |qs[s.currentIdx].correctOrder| && k < |p|
    requires s.orderedItems == p[..k]
    ensures var f := RunEvents(qs, s, OrderClicks(p[k..], rand)).final;
      f.isLocked && f.orderedItems == p && f.history == s.history + [p == qs[s.currentIdx].correctOrder]
    decreases |p| - k
  {
    var es := OrderClicks(p[k..], rand);
    assert p[k..][1..] == p[k + 1..];
    assert es == [OrderItemClicked(p[k], rand)] + OrderClicks(p[k + 1..], rand);
    assert p[k] !in p[..k];
    assert p[..k] + [p[k]] == p[..k + 1];
    StepPreservesInv(qs, s, es[0]);
    var t := Step(qs, s, es[0]);
    assert t.next.orderedItems == p[..k + 1];
    assert es[1..] == OrderClicks(p[k + 1..], rand);
    if k + 1 == |p| {
      assert p[..k + 1] == p;
    } else {
      ClickingSequenceDecides(qs, t.next, p, k + 1, rand);
    }
  }

  /** The correct order, clicked from an empty selection, is recorded correct. */
  lemma CorrectOrderIsRecordedCorrect(qs: seq<Question>, s: SessionState, rand: real)
    requires Inv(qs, s) && !s.isLocked && 0.0 <= rand < 1.0
    requires qs[s.currentIdx].OrderingQuestion? && WellFormedQuestion(qs[s.currentIdx])
    requires s.orderedItems == []
    ensures RunEvents(qs, s, OrderClicks(qs[s.currentIdx].correctOrder, rand)).final.history == s.history + [true]
  {
    var c := qs[s.currentIdx].correctOrder;
    assert c[..0] == [] && c[0..] == c;
    ClickingSequenceDecides(qs, s, c, 0, rand);
  }

  /** The correct order moved round by one place is a permutation of it, and
      clicking it from an empty selection is recorded wrong. */
  lemma RotatedOrderIsRecordedWrong(qs: seq<Question>, s: SessionState, rand: real)
    requires Inv(qs, s) && !s.isLocked && 0.0 <= rand < 1.0
    requires qs[s.currentIdx].OrderingQuestion? && WellFormedQuestion(qs[s.currentIdx])
    requires |qs[s.currentIdx].correctOrder| >= 2
    requires s.orderedItems == []
    ensures var c := qs[s.currentIdx].correctOrder;
      && multiset(c[1..] + [c[0]]) == multiset(c)
      && RunEvents(qs, s, OrderClicks(c[1..] + [c[0]], rand)).final.history == s.history + [false]
  {
    var c := qs[s.currentIdx].correctOrder;
    var p := c[1..] + [c[0]];
    RotationKeepsNoDuplicates(c);
    assert p[0] == c[1] != c[0];
    assert p[..0] == [] && p[0..] == p;
    ClickingSequenceDecides(qs, s, p, 0, rand);
  }

  /** Moving the first item of a sequence without repeats to the end gives a
      permutation of it, still without repeats. */
  lemma RotationKeepsNoDuplicates(c: seq<string>)
    requires NoDuplicates(c) && |c| >= 1
    ensures multiset(c[1..] + [c[0]]) == multiset(c)
    ensures NoDuplicates(c[1..] + [c[0]])
  {
    var p := c[1..] + [c[0]];
    assert c == [c[0]] + c[1..];
    forall i, j | 0 <= i < j < |p| ensures p[i] != p[j] {
      if j == |p| - 1 {
        assert p[i] == c[i + 1] && p[j] == c[0];
      } else {
        assert p[i] == c[i + 1] && p[j] == c[j + 1];
      }
    }
  }

  /** The sentences the ordering screen offers are exactly the items of the
      authored correct order, so the correct order can be clicked. */
  lemma OrderingDisplayMatchesCorrectOrder()
    ensures Questions[3].OrderingQuestion?
    ensures multiset(OrderingDisplayItems) == multiset(Questions[3].correctOrder)
  {
    var c := Q4.correctOrder;
    var d := OrderingDisplayItems;
    assert c == [d[2], d[0], d[3], d[1]];
  }

  /** For each pair, a left click then a right click on its id. */
  function MatchClicks(ps: seq<MatchingPair>, rand: real): (es: seq<Event>)
    ensures 0.0 <= rand < 1.0 ==> EventsOk(es)
  {
    if ps == [] then []
    else [MatchItemClicked(Left, ps[0].id, rand), MatchItemClicked(Right, ps[0].id, rand)] + MatchClicks(ps[1..], rand)
  }

  /** A right click on the pending non-empty id of a matching question
      matches that pair, and decides "correct" exactly when the matched set
      reaches the number of pairs. */
  lemma MatchRightClick(qs: seq<Question>, s: SessionState, id: string, rand: real)
    requires Inv(qs, s) && !s.isLocked && 0.0 <= rand < 1.0
    requires qs[s.currentIdx].MatchingQuestion?
    requires s.selectedLeft == Some(id) && id != ""
    ensures var r := ClickMatchItem(qs, s, Right, id, rand);
      && Inv(qs, r)
      && r.currentIdx == s.currentIdx
      && r.matchedPairs == s.matchedPairs + {id}
      && (r.isLocked <==> |s.matchedPairs + {id}| == |qs[s.currentIdx].matchingPairs|)
      && r.history == (if r.isLocked then s.history + [true] else s.history)
  {
    ClickMatchItemPreservesInv(qs, s, Right, id, rand);
  }

  /** The ids of the first k + 1 pairs are those of the first k and pair k's. */
  lemma PairIdsPrefix(ps: seq<MatchingPair>, k: nat)
    requires k < |ps|
    ensures PairIds(ps[..k + 1]) == PairIds(ps[..k]) + {ps[k].id}
  {
    assert ps[..k + 1][..k] == ps[..k];
  }

  /** Matching pair k by a left then a right click on its id. */
  lemma MatchOnePair(qs: seq<Question>, s: SessionState, k: nat, rand: real)
    requires Inv(qs, s) && !s.isLocked && 0.0 <= rand < 1.0
    requires qs[s.currentIdx].MatchingQuestion? && WellFormedQuestion(qs[s.currentIdx])
    requires k < |qs[s.currentIdx].matchingPairs|
    requires s.matchedPairs == PairIds(qs[s.currentIdx].matchingPairs[..k])
    ensures var ps := qs[s.currentIdx].matchingPairs;
      var s1 := ClickMatchItem(qs, s, Left, ps[k].id, rand);
      var s2 := ClickMatchItem(qs, s1, Right, ps[k].id, rand);
      && Inv(qs, s1) && Inv(qs, s2)
      && s2.currentIdx == s.currentIdx
      && s2.matchedPairs == PairIds(ps[..k + 1])
      && (s2.isLocked <==> k + 1 == |ps|)
      && s2.history == (if k + 1 == |ps| then s.history + [true] else s.history)
  {
    var ps := qs[s.currentIdx].matchingPairs;
    var id := ps[k].id;
    assert ps[k] in ps;
    var s1 := ClickMatchItem(qs, s, Left, id, rand);
    assert s1 == s.(selectedLeft := Some(id));
    MatchRightClick(qs, s1, id, rand);
    PairIdsPrefix(ps, k);
    assert |PairIds(ps[..k + 1])| == k + 1 by {
      assert DistinctIds(ps[..k + 1]);
      DistinctIdsCardinality(ps[..k + 1]);
    }
  }

  /** Running two events and then more is running the more from where the
      two events lead. */
  lemma RunTwoThenRest(qs: seq<Question>, s: SessionState, e1: Event, e2: Event, rest: seq<Event>)
    requires Inv(qs, s) && EventOk(e1) && EventOk(e2) && EventsOk(rest)
    ensures Inv(qs, Step(qs, s, e1).next)
    ensures Inv(qs, Step(qs, Step(qs, s, e1).next, e2).next)
    ensures RunEvents(qs, s, [e1, e2] + rest).final == RunEvents(qs, Step(qs, Step(qs, s, e1).next, e2).next, rest).final
  {
    StepPreservesInv(qs, s, e1);
    StepPreservesInv(qs, Step(qs, s, e1).next, e2);
    assert ([e1, e2] + rest)[1..] == [e2] + rest;
    assert ([e2] + rest)[1..] == rest;
  }

  /** On a well-formed matching question, matching the remaining pairs one
      after the other decides the question once, as correct. */
  lemma {:induction false} MatchingEveryPairDecides(qs: seq<Question>, s: SessionState, k: nat, rand: real)
    requires Inv(qs, s) && !s.isLocked && 0.0 <= rand < 1.0
    requires qs[s.currentIdx].MatchingQuestion? && WellFormedQuestion(qs[s.currentIdx])
    requires k < |qs[s.currentIdx].matchingPairs|
    requires s.matchedPairs == PairIds(qs[s.currentIdx].matchingPairs[..k])
    ensures var f := RunEvents(qs, s, MatchClicks(qs[s.currentIdx].matchingPairs[k..], rand)).final;
      f.isLocked && f.history == s.history + [true]
    decreases |qs[s.currentIdx].matchingPairs| - k
  {
    var ps := qs[s.currentIdx].matchingPairs;
    var id := ps[k].id;
    var left, right := MatchItemClicked(Left, id, rand), MatchItemClicked(Right, id, rand);
    var rest := MatchClicks(ps[k + 1..], rand);
    assert ps[k..][1..] == ps[k + 1..];
    assert MatchClicks(ps[k..], rand) == [left, right] + rest;
    MatchOnePair(qs, s, k, rand);
    RunTwoThenRest(qs, s, left, right, rest);
    var s1 := ClickMatchItem(qs, s, Left, id, rand);
    assert Step(qs, s, left).next == s1;
    var s2 := ClickMatchItem(qs, s1, Right, id, rand);
    assert Step(qs, s1, right).next == s2;
    if k + 1 < |ps| {
      MatchingEveryPairDecides(qs, s2, k + 1, rand);
    } else {
      assert rest == [];
    }
  }

  /** Two questions: a right answer, the timer, a wrong true/false answer,
      the timer: one report of 10 points over [true, false]. */
  lemma TwoQuestionSession()
    ensures var qs := [MultipleChoiceQuestion(1, "q1", ["X", "Y"], "X"), TrueFalseQuestion(2, "q2", true)];
      var es := [OptionChosen(Text("X"), 0.5), TimerFired, OptionChosen(Flag(false), 0.5), TimerFired];
      Inv(qs, Initial()) && EventsOk(es) && RunEvents(qs, Initial(), es).reports == [Report(10, [true, false])]
  {
    var qs := [MultipleChoiceQuestion(1, "q1", ["X", "Y"], "X"), TrueFalseQuestion(2, "q2", true)];
    var e0, e2 := OptionChosen(Text("X"), 0.5), OptionChosen(Flag(false), 0.5);
    var s0 := Initial();
    InitialInv(qs);
    StepPreservesInv(qs, s0, e0);
    var s1 := ChooseOption(qs, s0, Text("X"), 0.5);
    assert s1.history == [true] && s1.score == 10 && s1.pending == Some(Decision(true, [true], 0, 0));
    StepPreservesInv(qs, s1, TimerFired);
    var s2 := TimerStep(qs, s1).next;
    assert TimerStep(qs, s1).ended == None && s2.currentIdx == 1 && !s2.isLocked;
    StepPreservesInv(qs, s2, e2);
    var s3 := ChooseOption(qs, s2, Flag(false), 0.5);
    assert [true] + [false] == [true, false];
    assert s3.pending == Some(Decision(false, [true, false], 1, 10));
    StepPreservesInv(qs, s3, TimerFired);
    var t4 := TimerStep(qs, s3);
    assert t4.ended == Some(Report(10, [true, false]));
    assert RunEvents(qs, s3, [TimerFired]).reports == [Report(10, [true, false])];
    assert [e2, TimerFired][1..] == [TimerFired];
    assert RunEvents(qs, s2, [e2, TimerFired]).reports == [Report(10, [true, false])];
    assert [TimerFired, e2, TimerFired][1..] == [e2, TimerFired];
    assert RunEvents(qs, s1, [TimerFired, e2, TimerFired]).reports == [Report(10, [true, false])];
    assert [e0, TimerFired, e2, TimerFired][1..] == [TimerFired, e2, TimerFired];
  }

  /** Two pairs p1 and p2: a mismatched right click (p1 then p2) is absorbed
      without a decision; matching p1 and then p2 decides "correct" once. */
  lemma MatchingWithOneMiss()
    ensures var qs := [MatchingQuestion(1, "m", [MatchingPair("p1", "L1", "R1"), MatchingPair("p2", "L2", "R2")])];
      var s1 := ClickMatchItem(qs, Initial(), Left, "p1", 0.5);
      var s2 := ClickMatchItem(qs, s1, Right, "p2", 0.5);
      var s3 := ClickMatchItem(qs, s2, Left, "p1", 0.5);
      var s4 := ClickMatchItem(qs, s3, Right, "p1", 0.5);
      var s5 := ClickMatchItem(qs, s4, Left, "p2", 0.5);
      var s6 := ClickMatchItem(qs, s5, Right, "p2", 0.5);
      && s2 == Initial()
      && !s4.isLocked && s4.matchedPairs == {"p1"} && s4.history == []
      && s6.isLocked && s6.history == [true] && s6.score == 10
  {
    var qs := [MatchingQuestion(1, "m", [MatchingPair("p1", "L1", "R1"), MatchingPair("p2", "L2", "R2")])];
    assert "p1" != "p2" && "p1" != "";
    var s1 := ClickMatchItem(qs, Initial(), Left, "p1", 0.5);
    var s2 := ClickMatchItem(qs, s1, Right, "p2", 0.5);
    var s3 := ClickMatchItem(qs, s2, Left, "p1", 0.5);
    var s4 := ClickMatchItem(qs, s3, Right, "p1", 0.5);
    assert |s4.matchedPairs| == 1;
    var s5 := ClickMatchItem(qs, s4, Left, "p2", 0.5);
    var s6 := ClickMatchItem(qs, s5, Right, "p2", 0.5);
    assert |s6.matchedPairs| == 2;
  }

  // ---------------------------------------------------------------------
  // The deferred step as written reopens the last question

  /** As written, the session unlocks after its report and stays on the last
      question, so a second answer there produces a second report with one
      entry too many and a score above the maximum. */
  lemma AsWrittenReportsTwice()
    ensures var qs := [TrueFalseQuestion(1, "q", true)];
      var s1 := ChooseOption(qs, Initial(), Flag(true), 0.0);
      var t1 := TimerStepAsWritten(qs, s1);
      var s2 := ChooseOption(qs, t1.next, Flag(true), 0.0);
      var t2 := TimerStepAsWritten(qs, s2);
      && t1.ended == Some(Report(10, [true]))
      && t2.ended == Some(Report(20, [true, true]))
      && !ReportSound(qs, t2.ended.value)
  {
    var qs := [TrueFalseQuestion(1, "q", true)];
    var s1 := ChooseOption(qs, Initial(), Flag(true), 0.0);
    assert s1.pending == Some(Decision(true, [true], 0, 0));
    var t1 := TimerStepAsWritten(qs, s1);
    assert t1.ended == Some(Report(10, [true]));
    assert t1.next == Cleared(s1) && t1.next.score == 10 && t1.next.history == [true];
    assert !t1.next.isLocked && t1.next.currentIdx == 0;
    assert IsOptionCorrect(qs[0], Flag(true));
    var s2 := ChooseOption(qs, t1.next, Flag(true), 0.0);
    assert s2 == Decide(t1.next, true, 0.0);
    assert [true] + [true] == [true, true];
    assert s2.pending == Some(Decision(true, [true, true], 0, 10));
    assert ReportedScore(s2.pending.value) == 20;
  }

  /** On the authored quiz: after a perfect run the as-written step reopens
      the image question, and choosing "hand" again reports 110 points over
      eleven entries. */
  lemma AsWrittenScores110(s: SessionState, rand: real)
    requires Inv(Questions, s) && s.pending.Some? && s.currentIdx == 9 && s.score == 100
    requires 0.0 <= rand < 1.0
    ensures var t1 := TimerStepAsWritten(Questions, s);
      var s2 := ChooseOption(Questions, t1.next, Text("hand"), rand);
      var t2 := TimerStepAsWritten(Questions, s2);
      && t1.ended == Some(Report(100, s.history))
      && t2.ended.Some? && t2.ended.value.finalScore == 110 && |t2.ended.value.history| == 11
  {
    var t1 := TimerStepAsWritten(Questions, s);
    assert s.pending.value.isCorrect;
    var s2 := ChooseOption(Questions, t1.next, Text("hand"), rand);
    assert IsOptionCorrect(Questions[9], Text("hand"));
  }

  /** With the lock kept, the same click after the report changes nothing. */
  lemma FinishedSessionIgnoresClicks(s: SessionState, rand: real)
    requires Inv(Questions, s) && s.pending.Some? && s.currentIdx == 9
    requires 0.0 <= rand < 1.0
    ensures var t1 := TimerStep(Questions, s);
      && t1.ended.Some?
      && ChooseOption(Questions, t1.next, Text("hand"), rand) == t1.next
      && TimerStep(Questions, t1.next) == Advanced(t1.next, None)
  {
  }

  // ---------------------------------------------------------------------
  // The session as the component holds it: fields updated in place

  class GameScreen {
    const questions: seq<Question>
    var currentIdx: nat
    var score: int
    var history: seq<bool>
    var showFeedback: Feedback
    var feedbackMsg: string
    var isLocked: bool
    var orderedItems: seq<string>
    var matchedPairs: set<string>
    var selectedLeft: Option<string>
    /** The advance scheduled by the last decision, with what it captured. */
    var pending: Option<Decision>

    function State(): SessionState
      reads this
    {
      SessionState(currentIdx, score, history, showFeedback, feedbackMsg, isLocked,
                   orderedItems, matchedPairs, selectedLeft, pending)
    }

    ghost predicate Valid()
      reads this
    {
      Inv(questions, State())
    }

    constructor(questions: seq<Question>)
      requires 0 < |questions|
      ensures this.questions == questions && State() == Initial() && Valid()
    {
      this.questions := questions;
      currentIdx, score, history := 0, 0, [];
      showFeedback, feedbackMsg, isLocked := NoFeedback, "", false;
      orderedItems, matchedPairs, selectedLeft := [], {}, None;
      pending := None;
    }

    method HandleNext(isCorrect: bool, rand: real)
      requires 0.0 <= rand < 1.0
      modifies this
      ensures State() == Decide(old(State()), isCorrect, rand)
    {
      var scoreAtDecision := score;
      isLocked := true;
      var newHistory := history + [isCorrect];
      history := newHistory;
      if isCorrect {
        score := score + PointsPerQuestion;
        feedbackMsg := FeedbackMessages[PickIndex(rand)];
        showFeedback := CorrectFeedback;
      } else {
        feedbackMsg := RetryMessage;
        showFeedback := WrongFeedback;
      }
      pending := Some(Decision(isCorrect, newHistory, currentIdx, scoreAtDecision));
    }

    method HandleOptionClick(option: Answer, rand: real)
      requires Valid() && 0.0 <= rand < 1.0
      modifies this
      ensures Valid()
      ensures State() == ChooseOption(questions, old(State()), option, rand)
    {
      ghost var before := State();
      if !isLocked {
        var isCorrect := IsOptionCorrect(questions[currentIdx], option);
        HandleNext(isCorrect, rand);
      }
      ChooseOptionPreservesInv(questions, before, option, rand);
    }

    method HandleOrderClick(item: string, rand: real)
      requires Valid() && 0.0 <= rand < 1.0
      modifies this
      ensures Valid()
      ensures State() == ClickOrderItem(questions, old(State()), item, rand)
    {
      ghost var before := State();
      if !isLocked {
        var newOrder;
        if item in orderedItems {
          newOrder := Without(orderedItems, item);
        } else {
          newOrder := orderedItems + [item];
        }
        assert newOrder == ToggleOrder(before.orderedItems, item);
        orderedItems := newOrder;
        assert State() == before.(orderedItems := newOrder);
        var q := questions[currentIdx];
        if q.OrderingQuestion? && |newOrder| == |q.correctOrder| {
          var isCorrect := newOrder == q.correctOrder;
          HandleNext(isCorrect, rand);
        }
      }
      ClickOrderItemPreservesInv(questions, before, item, rand);
    }

    method HandleMatchClick(side: Side, pairId: string, rand: real)
      requires Valid() && 0.0 <= rand < 1.0
      modifies this
      ensures Valid()
      ensures State() == ClickMatchItem(questions, old(State()), side, pairId, rand)
    {
      ghost var before := State();
      if !isLocked {
        if side == Left {
          selectedLeft := Some(pairId);
        } else if selectedLeft == None || selectedLeft == Some("") {
          // a right click with no left item chosen does nothing
        } else if selectedLeft == Some(pairId) {
          var newMatches := matchedPairs + {pairId};
          matchedPairs := newMatches;
          selectedLeft := None;
          var q := questions[currentIdx];
          if q.MatchingQuestion? && |newMatches| == |q.matchingPairs| {
            HandleNext(true, rand);
          }
        } else {
          selectedLeft := None;
        }
      }
      ClickMatchItemPreservesInv(questions, before, side, pairId, rand);
    }

    /** The deferred body, run when the feedback delay has elapsed. */
    method Advance() returns (report: Option<Report>)
      requires Valid()
      modifies this
      ensures Valid()
      ensures Advanced(State(), report) == TimerStep(questions, old(State()))
      ensures report.Some? ==> report.value == Report(score, history) && ReportSound(questions, report.value)
    {
      TimerStepPreservesInv(questions, State());
      report := None;
      if pending.None? {
        return;
      }
      var d := pending.value;
      showFeedback := NoFeedback;
      isLocked := false;
      orderedItems := [];
      matchedPairs := {};
      selectedLeft := None;
      feedbackMsg := "";
      pending := None;
      if d.idx < |questions| - 1 {
        currentIdx := currentIdx + 1;
      } else {
        isLocked := true;
        report := Some(Report(ReportedScore(d), d.newHistory));
      }
    }
  }
}
