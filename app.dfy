// The outer view machine: welcome screen, game, result screen; the score
// tier shown on the result screen and the colour of each progress dot.

module AppView {
  import opened Types
  import opened Constants
  import opened Session

  class App {
    var gameState: GameState

    constructor()
      ensures gameState == GameState(Welcome, 0, 0, [])
    {
      gameState := GameState(Welcome, 0, 0, []);
    }

    /** Start (or replay): a fresh game whatever came before. */
    method StartGame()
      modifies this
      ensures gameState == GameState(Game, 0, 0, [])
    {
      gameState := GameState(Game, 0, 0, []);
    }

    /** The deferred body of the end-of-game handler: take the reported score
        and history as they are and show the result screen. */
    method HandleGameEnd(finalScore: int, history: seq<bool>)
      modifies this
      ensures gameState == old(gameState).(score := finalScore, answersHistory := history, view := Result)
      ensures gameState.currentQuestionIndex == old(gameState).currentQuestionIndex
    {
      gameState := gameState.(score := finalScore, answersHistory := history, view := Result);
    }
  }

  /** The three messages of the result screen. */
  datatype Tier = Champion | Excellent | TryAgain

  /** The tier of a final score: exactly 100 is the top tier; otherwise 70 or
      more is the middle tier; anything else asks to try again. */
  function TierOf(score: int): (t: Tier)
    ensures t == Champion <==> score == 100
    ensures t == Excellent <==> score >= 70 && score != 100
    ensures t == TryAgain <==> score < 70
  {
    if score == 100 then Champion
    else if score >= 70 then Excellent
    else TryAgain
  }

  function Rank(t: Tier): nat
  {
    match t
    case TryAgain => 0
    case Excellent => 1
    case Champion => 2
  }

  /** On the scores a session can report, a higher score never gets a lower
      tier, and the middle tier is exactly the scores from 70 to below 100. */
  lemma TierMonotone(a: int, b: int)
    requires 0 <= a <= b <= PointsPerQuestion * |Questions|
    ensures Rank(TierOf(a)) <= Rank(TierOf(b))
    ensures TierOf(b) == Excellent <==> 70 <= b < 100
  {
  }

  /** The colour of a progress dot on the result screen. */
  datatype DotColour = Green | Red | Grey

  function DotColourOf(history: seq<bool>, idx: nat): (c: DotColour)
    ensures c == Green <==> idx < |history| && history[idx]
    ensures c == Red <==> idx < |history| && !history[idx]
    ensures c == Grey <==> idx >= |history|
  {
    if idx < |history| then (if history[idx] then Green else Red) else Grey
  }

  /** The first n dots, one per question. */
  function Dots(history: seq<bool>, n: nat): (d: seq<DotColour>)
    ensures |d| == n
  {
    if n == 0 then [] else Dots(history, n - 1) + [DotColourOf(history, n - 1)]
  }

  /** Dot i is coloured by the rule for index i. */
  lemma {:induction false} DotsAt(history: seq<bool>, n: nat, i: nat)
    requires i < n
    ensures Dots(history, n)[i] == DotColourOf(history, i)
  {
    if i < n - 1 {
      DotsAt(history, n - 1, i);
    }
  }

  function GreenCount(d: seq<DotColour>): nat
  {
    if d == [] then 0 else GreenCount(d[..|d| - 1]) + (if d[|d| - 1] == Green then 1 else 0)
  }

  lemma {:induction false} GreenCountIsCorrectCount(history: seq<bool>, k: nat)
    requires k <= |history|
    ensures GreenCount(Dots(history, k)) == CountTrue(history[..k])
  {
    if k > 0 {
      GreenCountIsCorrectCount(history, k - 1);
      var prev := Dots(history, k - 1);
      var d := prev + [DotColourOf(history, k - 1)];
      assert d[..k - 1] == prev;
      assert history[..k][..k - 1] == history[..k - 1];
    }
  }

  /** What the result screen shows for a report of the authored quiz: ten
      dots with no grey one, one green dot per 10 points, and the top tier
      exactly when every answer was correct. */
  lemma ResultScreenShowsReport(r: Report)
    requires ReportSound(Questions, r)
    ensures forall i :: 0 <= i < |Questions| ==> Dots(r.history, |Questions|)[i] != Grey
    ensures PointsPerQuestion * GreenCount(Dots(r.history, |Questions|)) == r.finalScore
    ensures TierOf(r.finalScore) == Champion <==> forall i :: 0 <= i < |r.history| ==> r.history[i]
  {
    forall i | 0 <= i < |Questions| ensures Dots(r.history, |Questions|)[i] != Grey {
      DotsAt(r.history, |Questions|, i);
    }
    GreenCountIsCorrectCount(r.history, |r.history|);
    assert r.history[..|r.history|] == r.history;
    CountTrueFull(r.history);
  }
}
