// The authored content: the pool of praise messages shown after a correct
// answer and the ten questions of the quiz, in quiz order.

module Constants {
  import opened Types

  /** Praise shown after a correct decision; one is picked per decision. */
  const FeedbackMessages: seq<string> := [
    "أحسنت يا بطل! 🌟",
    "شاطر جداً! 👏",
    "هائل! 🚀",
    "ممتاز! 🏆",
    "رائع! 🌈",
    "ذكي جداً! 🧠",
    "إجابة مذهلة! ✨",
    "عمل رائع! 💪"
  ]

  const Q1: Question := MultipleChoiceQuestion(1, "من كانت أول من رفعت يدها؟",
    ["أحمد", "يوسف", "إيمان", "سارة"], "إيمان")
  const Q2: Question := TrueFalseQuestion(2, "المعلم كان غاضبًا عندما سأل السؤال.", false)
  const Q3: Question := MultipleChoiceQuestion(3, "لماذا رفعت إيمان يدها؟",
    ["لتلعب", "لتجاوب سؤال المعلم", "لأن زملاءها طلبوا منها", "لأنها كانت زهقانة"], "لتجاوب سؤال المعلم")
  const Q4: Question := OrderingQuestion(4, "رتب أحداث القصة:",
    ["المعلم يسأل", "إيمان ترفع يدها", "المعلم يختارها", "إيمان تجيب"])
  const Q5: Question := MultipleChoiceQuestion(5, "كيف شعرت إيمان بعد الإجابة؟",
    ["حزينة", "خائفة", "مبسوطة", "غاضبة"], "مبسوطة")
  const Q6: Question := MultipleChoiceQuestion(6, "أكمل: إيمان كانت _____ عندما رفعت يدها.",
    ["مترددة", "حزينة", "شجاعة"], "شجاعة")
  const Q7: Question := MatchingQuestion(7, "طابق بين الشخص والحدث:", [
    MatchingPair("m1", "المعلم", "يسأل"),
    MatchingPair("m2", "يد مرفوعة", "تريد الإجابة"),
    MatchingPair("m3", "طالبة تتكلم", "تشرح"),
    MatchingPair("m4", "المعلم يبتسم", "يشجع")
  ])
  const Q8: Question := MultipleChoiceQuestion(8, "ماذا نتعلم من القصة؟",
    ["الضوضاء", "النوم", "الشجاعة والمشاركة", "الكذب"], "الشجاعة والمشاركة")
  const Q9: Question := TrueFalseQuestion(9, "إيمان رفضت الإجابة.", false)
  const Q10: Question := ImageChoiceQuestion(10, "اختر الرمز الذي يعبر عن 'رفع اليد':",
    ["hand", "sleep", "run"], "hand")

  /** The quiz, in quiz order. */
  const Questions: seq<Question> := [Q1, Q2, Q3, Q4, Q5, Q6, Q7, Q8, Q9, Q10]

  /** Points added per correct decision. */
  const PointsPerQuestion: int := 10

  /** A quiz is well formed when it is non-empty, its ids count 1, 2, ... in
      quiz order, and every question meets the authoring rules of its kind. */
  predicate WellFormedQuiz(qs: seq<Question>)
  {
    && 0 < |qs|
    && (forall i :: 0 <= i < |qs| ==> qs[i].id == i + 1)
    && (forall i :: 0 <= i < |qs| ==> WellFormedQuestion(qs[i]))
  }

  /** The ordering question's four sentences are distinct. */
  lemma OrderingItemsDistinct()
    ensures NoDuplicates(Q4.correctOrder)
  {
    var c := Q4.correctOrder;
    assert c[0] != c[1] && c[0] != c[2] && c[0] != c[3];
    assert c[1] != c[2] && c[1] != c[3] && c[2] != c[3];
  }

  /** The authored quiz is well formed: ten questions with ids 1..10, every
      option answer among its options, distinct non-empty pair ids and an
      ordering without repeats; the best possible score is therefore 100. */
  lemma QuestionsWellFormed()
    ensures WellFormedQuiz(Questions)
    ensures |Questions| == 10 && PointsPerQuestion * |Questions| == 100
  {
    OrderingItemsDistinct();
    MatchingIdsDistinct();
    assert forall p :: p in Q7.matchingPairs ==> p.id != "";
  }

  /** The kinds of the ten questions, in quiz order. */
  lemma QuestionKinds()
    ensures forall i :: 0 <= i < |Questions| ==>
      TypeOf(Questions[i]) == [MultipleChoice, TrueFalse, MultipleChoice, Ordering, MultipleChoice,
                               MultipleChoice, Matching, MultipleChoice, TrueFalse, ImageChoice][i]
  {
  }

  /** Both true/false questions expect the answer "false", as a boolean. */
  lemma TrueFalseAnswersAreBooleans()
    ensures CorrectAnswer(Questions[1]) == Some(Flag(false))
    ensures CorrectAnswer(Questions[8]) == Some(Flag(false))
  {
  }

  /** The four pair ids m1..m4 of the matching question are distinct. */
  lemma MatchingIdsDistinct()
    ensures DistinctIds(Q7.matchingPairs)
  {
    var ps := Q7.matchingPairs;
    assert ps[0].id == "m1" && ps[1].id == "m2" && ps[2].id == "m3" && ps[3].id == "m4";
  }

  /** The matching question needs exactly four correct right clicks: its four
      ids m1..m4 are distinct. */
  lemma MatchingQuestionHasFourIds()
    ensures MatchingPairsOf(Questions[6]).Some?
    ensures DistinctIds(Questions[6].matchingPairs)
    ensures |PairIds(Questions[6].matchingPairs)| == 4
  {
    assert Questions[6] == Q7;
    MatchingIdsDistinct();
    DistinctIdsCardinality(Q7.matchingPairs);
  }
}
