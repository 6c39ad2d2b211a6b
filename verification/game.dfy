/**
 * The third-generation game controller (`GeoGame`): a game is a set of
 * questions asked one per round; a round ends with exactly one answer
 * (a click on the globe or the question timer running out), is scored,
 * highlighted and reviewed, and the next round starts until the set is
 * exhausted. Timers, the globe's animations and the dialogs become
 * events; `Math.random()` is the oracle of the `Sampling` module.
 */
module Game {
  import opened Base
  import opened Features
  import opened Questions
  import opened GameInfo
  import Sampling
  import MG = ModifiableGlobe

  const NUM_QUESTIONS_PER_GAME: int := 10
  /** Milliseconds between the answer and the rotation to the answer. */
  const RESULTS_ROTATE_DELAY: int := 300
  /** Seconds a question may stay unanswered. */
  const DEFAULT_QUESTION_TIME: int := 15

  /** Where the controller is: before the first game, waiting for an
      answer, showing a round's result, after the last round; `Stalled`
      is a round whose scoring threw, which leaves nothing armed to move
      on; `Frozen` is a question set whose sampler never returns. */
  datatype Phase = Idle | Asking | Reviewing | Over | Stalled | Frozen

  /** The controller's state: the question set, the round counter, the
      running score, whether the click handler and question timer are
      armed, the globe's highlight mode and highlighted countries, and
      the info bar. */
  datatype Game = Game(
    questions: seq<Question>,
    numQuestions: int,
    currQuestion: int,
    score: int,
    phase: Phase,
    clickArmed: bool,
    timerArmed: bool,
    highlightMode: bool,
    registry: MG.Registry,
    bar: InfoBar)

  /** What the controller works with but does not own: the scoring
      geometry and curve, and the pool of countries questions are drawn
      from. */
  datatype Setup = Setup(scorer: Scorer, pool: seq<Feature>)

  /** The constructor's state: no questions, nothing armed. */
  const INITIAL: Game := Game([], 0, 0, 0, Idle, false, false, false, MG.Registry([], []), EMPTY_BAR)

  /** What a user or a timer can do: press start or play again (with the
      draws the question set will consume), click the globe, let the
      question timer run out, press next on the result dialog, or press
      the end overlay's button back to the start screen. */
  datatype Event =
    | StartGame(num: Option<int>, randoms: seq<real>)
    | Click(lonLat: LonLat, country: Option<Feature>)
    | Timeout
    | Next
    | Menu

  /** The state after a handler, and the message of the exception that
      ended it early, if any. */
  datatype Outcome = Outcome(game: Game, thrown: Option<string>)

  /** A question no answer has touched. */
  predicate Fresh(q: Question) {
    !q.answered && !q.correctCountry && GetScore(q) == Score(0, 0, 0, 0)
  }

  /** What a question adds to the running score: its total, when it was
      answered with the right country. */
  function Credit(q: Question): int {
    if q.correctCountry then q.totalScore else 0
  }

  /** The credits of a sequence of questions. */
  function CorrectSum(qs: seq<Question>): int
    decreases |qs|
  {
    if |qs| == 0 then 0 else CorrectSum(qs[..|qs| - 1]) + Credit(qs[|qs| - 1])
  }

  /** Replacing one question changes the sum by the change in its credit. */
  lemma {:induction false} CorrectSumUpdate(qs: seq<Question>, i: nat, q: Question)
    requires i < |qs|
    ensures CorrectSum(qs[i := q]) == CorrectSum(qs) - Credit(qs[i]) + Credit(q)
    decreases |qs|
  {
    var last := |qs| - 1;
    if i < last {
      CorrectSumUpdate(qs[..last], i, q);
      assert qs[i := q][..last] == qs[..last][i := q];
    } else {
      assert qs[i := q][..last] == qs[..last];
    }
  }

  /** Fresh questions add nothing. */
  lemma {:induction false} CorrectSumFresh(qs: seq<Question>)
    requires forall j :: 0 <= j < |qs| ==> Fresh(qs[j])
    ensures CorrectSum(qs) == 0
    decreases |qs|
  {
    if |qs| > 0 {
      CorrectSumFresh(qs[..|qs| - 1]);
    }
  }

  /** What holds between handlers: the round counter stays within the
      set, the score is the sum of the credits of the questions answered
      right, the questions after the current one are untouched, the
      click handler and the timer are armed exactly while a question is
      asked, and nothing is highlighted while a question is asked. */
  predicate Inv(g: Game) {
    0 <= g.numQuestions == |g.questions| &&
    0 <= g.currQuestion <= g.numQuestions &&
    g.score == CorrectSum(g.questions) &&
    (forall j :: g.currQuestion < j < |g.questions| ==> Fresh(g.questions[j])) &&
    ((g.phase.Asking? || g.phase.Reviewing? || g.phase.Stalled?) ==> g.currQuestion < g.numQuestions) &&
    (g.phase.Over? ==> g.currQuestion == g.numQuestions) &&
    (g.phase.Asking? ==> Fresh(g.questions[g.currQuestion]) && g.clickArmed && g.timerArmed) &&
    (!g.phase.Asking? ==> !g.clickArmed && !g.timerArmed) &&
    ((g.phase.Idle? || g.phase.Asking? || g.phase.Over?) ==> g.registry == MG.Registry([], []))
  }

  lemma InitialInv()
    ensures Inv(INITIAL)
  {
  }

  /** `startRound`: the current question is shown with its round number
      and the score, highlight mode is on, and the timer and the click
      handler are armed. */
  function StartRound(g: Game): (r: Game)
    requires Inv(g.(phase := Reviewing)) && Fresh(g.questions[g.currQuestion])
    requires g.registry == MG.Registry([], [])
    ensures Inv(r) && r.phase == Asking && r.highlightMode
    ensures r.questions == g.questions && r.currQuestion == g.currQuestion && r.score == g.score
    ensures r.bar.round == Some(RoundLabel(g.currQuestion + 1, g.numQuestions))
    ensures r.bar.score == Some(g.score) && r.bar.prompt == Some(QuestionPrompt)
    ensures TruthyString(Some(g.questions[g.currQuestion].questionCountry.properties.NAME)) ==>
              r.bar.question == Some(g.questions[g.currQuestion].questionCountry.properties.NAME)
  {
    var q := g.questions[g.currQuestion];
    var bar := UpdateOverlayWithPrompt(g.bar, Some(q.questionCountry.properties.NAME), Some(g.currQuestion + 1),
                                       g.numQuestions, Some(g.score), false);
    g.(phase := Asking, clickArmed := true, timerArmed := true, highlightMode := true, bar := bar)
  }

  /** The assignments of `startGame` once the question set exists: the
      first round of a game over `qs` with a zero score. */
  function Begin(g: Game, qs: seq<Question>): (r: Game)
    requires Inv(g) && (g.phase.Idle? || g.phase.Over?)
    requires 0 < |qs| && forall j :: 0 <= j < |qs| ==> Fresh(qs[j])
    ensures Inv(r) && r.phase == Asking
    ensures r.questions == qs && r.numQuestions == |qs| && r.currQuestion == 0 && r.score == 0
    ensures r.bar.score == Some(0) && r.bar.round == Some(RoundLabel(1, |qs|))
  {
    CorrectSumFresh(qs);
    StartRound(g.(questions := qs, numQuestions := |qs|, currQuestion := 0, score := 0))
  }

  /** `startGame(numQuestions = 10)`, reachable from the start button
      and the play-again button, so only before the first game and after
      the last round. A question set that throws leaves the state as it
      was; one whose sampler never returns freezes the controller. */
  function Start(s: Setup, g: Game, num: Option<int>, randoms: seq<real>): (r: Outcome)
    requires Inv(g) && Sampling.IsRandomStream(randoms)
    ensures Inv(r.game)
    ensures !(g.phase.Idle? || g.phase.Over?) ==> r == Outcome(g, None)
    ensures var n := if num.Some? then num.value else NUM_QUESTIONS_PER_GAME;
            (g.phase.Idle? || g.phase.Over?) ==>
              (r.thrown.Some? <==> n <= 0 || |s.pool| == 0) &&
              (r.thrown.Some? ==> r.game == g) &&
              (r.thrown.None? ==> r.game.phase == Asking || r.game == g.(phase := Frozen))
    ensures var n := if num.Some? then num.value else NUM_QUESTIONS_PER_GAME;
            (g.phase.Idle? || g.phase.Over?) && r.game.phase == Asking ==>
              r.game.numQuestions == n && r.game.currQuestion == 0 && r.game.score == 0 &&
              r.game.bar.score == Some(0) && r.game.bar.round == Some(RoundLabel(1, n)) &&
              forall j :: 0 <= j < n ==> r.game.questions[j].questionCountry in s.pool
  {
    if !(g.phase.Idle? || g.phase.Over?) then Outcome(g, None)
    else
      var n := if num.Some? then num.value else NUM_QUESTIONS_PER_GAME;
      match NewQuestionSet(s.scorer.geodesy, s.pool, n, randoms)
      case Throw(e) => Outcome(g, Some(e))
      case Ok(None) => Outcome(g.(phase := Frozen), None)
      case Ok(Some(qset)) => Outcome(Begin(g, qset.questions), None)
  }

  /** `handleQuestionResponse(question, lonlat, country)`: the current
      question is answered; when the answer scores, the asked country is
      highlighted green, a right answer adds its total to the score and
      shows it, and a wrong country is highlighted red. An exception from
      scoring ends the handler with nothing armed. */
  function Respond(s: Setup, g: Game, lonLat: Option<LonLat>, country: Option<Feature>): (r: Outcome)
    requires Inv(g.(phase := Asking, clickArmed := true, timerArmed := true))
    requires g.currQuestion < g.numQuestions && Fresh(g.questions[g.currQuestion])
    requires !g.clickArmed && !g.timerArmed && g.registry == MG.Registry([], [])
    ensures Inv(r.game) && !r.game.clickArmed && !r.game.timerArmed
    ensures r.game.currQuestion == g.currQuestion && r.game.numQuestions == g.numQuestions
    ensures var a := Answer(s.scorer, g.questions[g.currQuestion], lonLat, country);
            r.game.questions == g.questions[g.currQuestion := a.question] &&
            (r.thrown.Some? <==> a.score.Throw?) &&
            (r.thrown.Some? ==> r.game.phase == Stalled && r.game.score == g.score) &&
            (r.thrown.None? ==>
               r.game.phase == Reviewing &&
               r.game.score == g.score + (if a.question.correctCountry then a.score.value.total else 0) &&
               (a.question.correctCountry ==> r.game.bar.score == Some(r.game.score)))
  {
    var i := g.currQuestion;
    var q := g.questions[i];
    var a := Answer(s.scorer, q, lonLat, country);
    var g1 := g.(questions := g.questions[i := a.question]);
    CorrectSumUpdate(g.questions, i, a.question);
    match a.score
    case Throw(e) => Outcome(g1.(phase := Stalled), Some(e))
    case Ok(sc) =>
      var geo := s.scorer.geodesy;
      var green := MG.HighlightCountry(geo, g.registry, q.questionCountry, "green");
      if a.question.correctCountry then
        var score := g.score + sc.total;
        var bar := UpdateOverlayWithPrompt(g.bar, None, None, g.numQuestions, Some(score), false);
        Outcome(g1.(registry := green, score := score, bar := bar, phase := Reviewing), None)
      else if a.question.answerCountry.Some? then
        var red := MG.HighlightCountry(geo, green, a.question.answerCountry.value, "red");
        Outcome(g1.(registry := red, phase := Reviewing), None)
      else
        Outcome(g1.(registry := green, phase := Reviewing), None)
  }

  /** The click handler of `startRound`: it unregisters itself, stops the
      timer, leaves highlight mode and answers with the clicked location
      and country. Without a registered handler a click does nothing. */
  function OnClick(s: Setup, g: Game, lonLat: LonLat, country: Option<Feature>): (r: Outcome)
    requires Inv(g)
    ensures Inv(r.game)
    ensures !g.clickArmed ==> r == Outcome(g, None)
    ensures g.clickArmed ==> !r.game.highlightMode && r.game.phase != Asking
  {
    if !g.clickArmed then Outcome(g, None)
    else Respond(s, g.(clickArmed := false, timerArmed := false, highlightMode := false), Some(lonLat), country)
  }

  /** The timer callback of `startRound`: it unregisters the click
      handler, leaves highlight mode and answers with nothing. */
  function OnTimeout(s: Setup, g: Game): (r: Outcome)
    requires Inv(g)
    ensures Inv(r.game) && r.thrown.None?
    ensures !g.timerArmed ==> r.game == g
    ensures g.timerArmed ==> !r.game.highlightMode && r.game.phase == Reviewing
  {
    if !g.timerArmed then Outcome(g, None)
    else Respond(s, g.(clickArmed := false, timerArmed := false, highlightMode := false), None, None)
  }

  /** `endGame`: the click property is cleared, the bar shows '-' and the
      end-of-game prompt, and highlight mode is left. */
  function EndGame(g: Game): (r: Game)
    requires Inv(g.(phase := Over))
    ensures Inv(r) && r.phase == Over && !r.highlightMode
    ensures r.questions == g.questions && r.score == g.score
    ensures r.bar.question == Some("-") && r.bar.prompt == Some(EndGamePrompt) && r.bar.score == g.bar.score
  {
    var bar := UpdateOverlayWithPrompt(g.bar, Some("-"), None, g.numQuestions, None, true);
    g.(clickArmed := false, bar := bar, highlightMode := false, phase := Over)
  }

  /** The result dialog's next button: highlights are cleared, and the
      pre-incremented round counter decides between the next round and
      the end of the game. */
  function OnNext(g: Game): (r: Game)
    requires Inv(g)
    ensures Inv(r)
    ensures !g.phase.Reviewing? ==> r == g
    ensures g.phase.Reviewing? ==>
              r.currQuestion == g.currQuestion + 1 && r.score == g.score && r.questions == g.questions &&
              r.registry == MG.Registry([], []) &&
              (r.phase == Asking <==> g.currQuestion + 1 < g.numQuestions) &&
              (r.phase == Over <==> g.currQuestion + 1 == g.numQuestions)
  {
    if !g.phase.Reviewing? then g
    else
      var g1 := g.(registry := MG.ClearHighlightedCountries(g.registry), currQuestion := g.currQuestion + 1);
      if g1.currQuestion < g1.numQuestions then StartRound(g1) else EndGame(g1)
  }

  /** The end overlay's second button: the end screen gives way to the
      start screen, whose start button begins a new game. The finished
      game's questions, score, highlights and info bar stay as they were;
      which overlays are shown and what the globe does meanwhile are not
      part of the controller's state. */
  function ToMenu(g: Game): (r: Game)
    requires Inv(g)
    ensures Inv(r)
    ensures !g.phase.Over? ==> r == g
    ensures g.phase.Over? ==>
              r.phase == Idle && !r.clickArmed && !r.timerArmed &&
              r.questions == g.questions && r.currQuestion == g.currQuestion && r.score == g.score &&
              r.registry == g.registry && r.bar == g.bar
  {
    if g.phase.Over? then g.(phase := Idle) else g
  }

  /** Going back to the start screen and pressing start gives the same
      new game, or the same exception, as pressing play again. */
  lemma MenuThenStartIsPlayAgain(s: Setup, g: Game, num: Option<int>, randoms: seq<real>)
    requires Inv(g) && g.phase == Over && Sampling.IsRandomStream(randoms)
    ensures var viaMenu := Start(s, ToMenu(g), num, randoms);
            var again := Start(s, g, num, randoms);
            viaMenu.thrown == again.thrown && (again.game.phase == Asking <==> viaMenu.game.phase == Asking) &&
            (again.game.phase == Asking ==> viaMenu.game == again.game)
  {
  }

  /** Draws are valid wherever an event carries them. */
  predicate WellFormed(e: Event) {
    e.StartGame? ==> Sampling.IsRandomStream(e.randoms)
  }

  /** One event delivered to the controller. */
  function Step(s: Setup, g: Game, e: Event): (r: Outcome)
    requires Inv(g) && WellFormed(e)
    ensures Inv(r.game)
  {
    match e
    case StartGame(num, randoms) => Start(s, g, num, randoms)
    case Click(lonLat, country) => OnClick(s, g, lonLat, country)
    case Timeout => OnTimeout(s, g)
    case Next => Outcome(OnNext(g), None)
    case Menu => Outcome(ToMenu(g), None)
  }

  /** A sequence of events; an exception ends its handler, not the page. */
  function Run(s: Setup, g: Game, events: seq<Event>): (r: Game)
    requires Inv(g) && forall i :: 0 <= i < |events| ==> WellFormed(events[i])
    ensures Inv(r)
    decreases |events|
  {
    if |events| == 0 then g else Run(s, Step(s, g, events[0]).game, events[1..])
  }

  /** A click or a timeout: the two ways a round is answered. */
  predicate IsAnswerEvent(e: Event) {
    e.Click? || e.Timeout?
  }

  /** A round takes at most one answer: once a click or the timer has
      answered, neither a second click nor the timer changes anything. */
  lemma OneAnswerPerRound(s: Setup, g: Game, e1: Event, e2: Event)
    requires Inv(g) && IsAnswerEvent(e1) && IsAnswerEvent(e2)
    ensures var g1 := Step(s, g, e1).game;
            Step(s, g1, e2) == Outcome(g1, None)
  {
  }

  /** After a scored answer exactly the asked country is green, and a
      country is red exactly when it is the answered country and the
      answer was wrong. */
  lemma HighlightsAfterAnswer(s: Setup, g: Game, e: Event, d: Feature)
    requires Inv(g) && g.phase == Asking && IsAnswerEvent(e)
    requires Step(s, g, e).thrown.None?
    ensures var r := Step(s, g, e).game;
            var q := r.questions[g.currQuestion];
            (MG.IsHighlightedCountry(r.registry, d, "green") <==>
               d.properties.NE_ID == q.questionCountry.properties.NE_ID) &&
            (MG.IsHighlightedCountry(r.registry, d, "red") <==>
               !q.correctCountry && q.answerCountry.Some? &&
               d.properties.NE_ID == q.answerCountry.value.properties.NE_ID)
  {
    var g0 := g.(clickArmed := false, timerArmed := false, highlightMode := false);
    var lonLat := if e.Click? then Some(e.lonLat) else None;
    var country := if e.Click? then e.country else None;
    var q0 := g.questions[g.currQuestion];
    var a := Answer(s.scorer, q0, lonLat, country);
    var geo := s.scorer.geodesy;
    var empty := MG.Registry([], []);
    var green := MG.HighlightCountry(geo, empty, q0.questionCountry, "green");
    assert Respond(s, g0, lonLat, country) == Step(s, g, e);
    MG.HighlightThenQuery(geo, empty, q0.questionCountry, "green", d, "green");
    MG.HighlightThenQuery(geo, empty, q0.questionCountry, "green", d, "red");
    if !a.question.correctCountry && a.question.answerCountry.Some? {
      MG.HighlightThenQuery(geo, green, a.question.answerCountry.value, "red", d, "green");
      MG.HighlightThenQuery(geo, green, a.question.answerCountry.value, "red", d, "red");
    }
  }

  /** Next after the last round ends the game, with the final score equal
      to the credits of all the answers. */
  lemma NextAfterLastEndsGame(s: Setup, g: Game)
    requires Inv(g) && g.phase == Reviewing && g.currQuestion + 1 == g.numQuestions
    ensures var r := Step(s, g, Next).game;
            r.phase == Over && !r.clickArmed && r.score == CorrectSum(r.questions) &&
            r.bar.prompt == Some(EndGamePrompt)
  {
  }

  /** Only a new game or the button back to the start screen leaves the
      end screen: clicks, timeouts and next do nothing there. */
  lemma OverIsStable(s: Setup, g: Game, e: Event)
    requires Inv(g) && g.phase == Over && WellFormed(e) && !e.StartGame? && !e.Menu?
    ensures Step(s, g, e).game == g
  {
  }

  /** With every question's total within [0, `MAX_SCORE`], the game's
      score is within [0, `MAX_SCORE` per question]. */
  lemma {:induction false} CorrectSumBounded(qs: seq<Question>)
    requires forall j :: 0 <= j < |qs| ==> 0 <= qs[j].totalScore <= MAX_SCORE
    ensures 0 <= CorrectSum(qs) <= MAX_SCORE * |qs|
    decreases |qs|
  {
    if |qs| > 0 {
      CorrectSumBounded(qs[..|qs| - 1]);
    }
  }
}
