// The shapes of the quiz: question kinds, questions, matching pairs, the
// answers a player can give, and the outer view state of the application.

module Types {

  datatype Option<T> = None | Some(value: T)

  /** The five kinds of question. */
  datatype QuestionType = MultipleChoice | TrueFalse | Ordering | Matching | ImageChoice

  /** One row of a matching question; `id` is the unit of correctness. */
  datatype MatchingPair = MatchingPair(id: string, left: string, right: string)

  /** A direct answer is either a string token or a boolean. */
  datatype Answer = Text(text: string) | Flag(flag: bool)

  /** One quiz item: a constructor per kind, each carrying only its own payload. */
  datatype Question =
    | MultipleChoiceQuestion(id: int, text: string, options: seq<string>, correctText: string)
    | TrueFalseQuestion(id: int, text: string, correctFlag: bool)
    | OrderingQuestion(id: int, text: string, correctOrder: seq<string>)
    | MatchingQuestion(id: int, text: string, matchingPairs: seq<MatchingPair>)
    | ImageChoiceQuestion(id: int, text: string, options: seq<string>, correctText: string)

  function TypeOf(q: Question): QuestionType
  {
    match q
    case MultipleChoiceQuestion(_, _, _, _) => MultipleChoice
    case TrueFalseQuestion(_, _, _) => TrueFalse
    case OrderingQuestion(_, _, _) => Ordering
    case MatchingQuestion(_, _, _) => Matching
    case ImageChoiceQuestion(_, _, _, _) => ImageChoice
  }

  /** The optional `correctAnswer` field: a string for the two option kinds,
      a boolean for true/false, absent otherwise. */
  function CorrectAnswer(q: Question): (a: Option<Answer>)
    ensures a.Some? && a.value.Text? <==> TypeOf(q) in {MultipleChoice, ImageChoice}
    ensures a.Some? && a.value.Flag? <==> TypeOf(q) == TrueFalse
    ensures a.None? <==> TypeOf(q) in {Ordering, Matching}
  {
    match q
    case MultipleChoiceQuestion(_, _, _, c) => Some(Text(c))
    case ImageChoiceQuestion(_, _, _, c) => Some(Text(c))
    case TrueFalseQuestion(_, _, b) => Some(Flag(b))
    case _ => None
  }

  /** The optional `options` field, present for the two option kinds only. */
  function OptionsOf(q: Question): (o: Option<seq<string>>)
    ensures o.Some? <==> TypeOf(q) in {MultipleChoice, ImageChoice}
  {
    match q
    case MultipleChoiceQuestion(_, _, opts, _) => Some(opts)
    case ImageChoiceQuestion(_, _, opts, _) => Some(opts)
    case _ => None
  }

  /** The optional `correctOrder` field, present for ordering questions only. */
  function CorrectOrderOf(q: Question): (o: Option<seq<string>>)
    ensures o.Some? <==> TypeOf(q) == Ordering
  {
    match q
    case OrderingQuestion(_, _, c) => Some(c)
    case _ => None
  }

  /** The optional `matchingPairs` field, present for matching questions only. */
  function MatchingPairsOf(q: Question): (o: Option<seq<MatchingPair>>)
    ensures o.Some? <==> TypeOf(q) == Matching
  {
    match q
    case MatchingQuestion(_, _, ps) => Some(ps)
    case _ => None
  }

  /** The pair ids of a matching question, as a set. */
  function PairIds(ps: seq<MatchingPair>): (ids: set<string>)
    ensures forall k :: 0 <= k < |ps| ==> ps[k].id in ids
    ensures forall x :: x in ids ==> exists k :: 0 <= k < |ps| && ps[k].id == x
  {
    if ps == [] then {} else PairIds(ps[..|ps| - 1]) + {ps[|ps| - 1].id}
  }

  predicate DistinctIds(ps: seq<MatchingPair>)
  {
    forall i, j :: 0 <= i < j < |ps| ==> ps[i].id != ps[j].id
  }

  predicate NoDuplicates<T(==)>(s: seq<T>)
  {
    forall i, j :: 0 <= i < j < |s| ==> s[i] != s[j]
  }

  /** Authoring rules a question must meet so that its correct answer is reachable. */
  predicate WellFormedQuestion(q: Question)
  {
    match q
    case MultipleChoiceQuestion(_, _, opts, c) => c in opts
    case ImageChoiceQuestion(_, _, opts, c) => c in opts
    case TrueFalseQuestion(_, _, _) => true
    case OrderingQuestion(_, _, c) => |c| > 0 && NoDuplicates(c)
    case MatchingQuestion(_, _, ps) => |ps| > 0 && DistinctIds(ps) && forall p :: p in ps ==> p.id != ""
  }

  /** The screens the application shows. */
  datatype View = Welcome | Game | Result

  /** The application's record: the view, the score, the question index and
      one boolean per answered question. */
  datatype GameState = GameState(view: View, score: int, currentQuestionIndex: int, answersHistory: seq<bool>)

  /** Distinct pair ids make the set of ids as large as the list of pairs. */
  lemma {:induction false} DistinctIdsCardinality(ps: seq<MatchingPair>)
    requires DistinctIds(ps)
    ensures |PairIds(ps)| == |ps|
  {
    if ps != [] {
      var last := ps[|ps| - 1];
      var init := ps[..|ps| - 1];
      assert DistinctIds(init);
      DistinctIdsCardinality(init);
      assert last.id !in PairIds(init);
    }
  }

  /** With distinct ids, a set of matched ids drawn from the pairs is complete
      exactly when it is as large as the list of pairs. */
  lemma FullMatchMeansEveryPair(ps: seq<MatchingPair>, matched: set<string>)
    requires DistinctIds(ps)
    requires matched <= PairIds(ps)
    ensures |matched| == |ps| <==> matched == PairIds(ps)
  {
    DistinctIdsCardinality(ps);
    if |matched| == |ps| && matched != PairIds(ps) {
      var x :| x in PairIds(ps) && x !in matched;
      SubsetCardinality(matched, PairIds(ps) - {x});
    }
  }

  lemma {:induction false} SubsetCardinality<T>(a: set<T>, b: set<T>)
    requires a <= b
    ensures |a| <= |b|
  {
    if a != {} {
      var x :| x in a;
      SubsetCardinality(a - {x}, b - {x});
    }
  }
}
