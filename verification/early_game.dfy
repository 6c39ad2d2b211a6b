/**
 * The first-generation game controller: questions are countries drawn
 * from the 50m dataset, an answer is a click on a country, and a round
 * is worth 100 points exactly when the clicked country has the asked
 * country's `ISO_A3` code. There is no question timer and no second
 * game.
 */
module EarlyGame {
  import opened Base
  import opened Features
  import opened Overlays
  import opened GameInfo
  import Sampling
  import EarlyGeoData
  import EMG = EarlyModifiableGlobe

  const NUM_QUESTIONS_PER_GAME: int := 5
  const SCORE_PER_QUESTION: int := 100
  /** Milliseconds between the answer and the rotation to the answer. */
  const ROTATE_TO_CORRECT_COUNTRY_DELAY: int := 1500

  /** What `computeResults` returns. */
  datatype Results = Results(correct: bool, proximity: int, adjacency: int, total: int)

  /** `computeResults(question, country)`: the whole round's score goes
      to the right country, booked as adjacency; anything else scores
      nothing. */
  function ComputeResults(question: Feature, country: Feature): (r: Results)
    ensures r.correct <==> country.properties.ISO_A3 == question.properties.ISO_A3
    ensures r.proximity == 0 && r.adjacency == r.total
    ensures r.total == (if r.correct then SCORE_PER_QUESTION else 0)
  {
    if country.properties.ISO_A3 == question.properties.ISO_A3 then
      Results(true, 0, SCORE_PER_QUESTION, SCORE_PER_QUESTION)
    else
      Results(false, 0, 0, 0)
  }

  /** Before the game, asking, showing a round's result, after the last
      round; `Frozen` is a question draw whose sampler never returns;
      `Stalled` is a round whose click handler threw, which leaves
      nothing registered to move on. */
  datatype Phase = Idle | Asking | Reviewing | Over | Frozen | Stalled

  /** The controller's state: the drawn countries, the question index and
      one-based round, the round count, the score, whether the click
      handler is registered, the globe's highlight mode and highlighted
      codes, the info bar, and the last round's results. */
  datatype Game = Game(
    questions: seq<Feature>,
    questionIndex: int,
    round: int,
    maxRound: int,
    score: int,
    phase: Phase,
    clickArmed: bool,
    highlightMode: bool,
    highlighted: seq<Highlight<string>>,
    bar: InfoBar,
    results: Option<Results>)

  /** The constructor's state. */
  const INITIAL: Game := Game([], 0, 0, 0, 0, Idle, false, false, [], EMPTY_BAR, None)

  /** The start button (shown once), a click on a country, and the
      result dialog's next button. */
  datatype Event =
    | StartGame(num: Option<int>, randoms: seq<real>)
    | Click(lonLat: LonLat, country: Feature)
    | Next

  datatype Outcome = Outcome(game: Game, thrown: Option<string>)

  /** Rounds whose answer is in. */
  function Answered(g: Game): int {
    match g.phase
    case Asking => g.round - 1
    case Stalled => g.round - 1
    case Reviewing => g.round
    case Over => g.round
    case _ => 0
  }

  /** What holds between handlers: the round counter runs from 1 to the
      number of questions drawn with the index one behind it, the score
      is a multiple of 100 no larger than 100 per answered round, the
      click handler is registered exactly while asking, and nothing is
      highlighted before the game or while asking. */
  predicate Inv(g: Game) {
    g.maxRound == |g.questions| &&
    ((g.phase.Idle? || g.phase.Frozen?) ==> g.round == 0 && g.score == 0) &&
    (!(g.phase.Idle? || g.phase.Frozen?) ==> 1 <= g.round <= g.maxRound && g.questionIndex == g.round - 1) &&
    (g.phase.Over? ==> g.round == g.maxRound) &&
    g.score % SCORE_PER_QUESTION == 0 && 0 <= g.score <= SCORE_PER_QUESTION * Answered(g) &&
    (g.clickArmed <==> g.phase.Asking?) &&
    ((g.phase.Idle? || g.phase.Asking? || g.phase.Frozen? || g.phase.Stalled?) ==> g.highlighted == []) &&
    (g.phase.Reviewing? ==> g.results.Some?)
  }

  lemma InitialInv()
    ensures Inv(INITIAL)
  {
  }

  /** `startRound`: highlight mode on, the question's name, round and
      score on the bar, and the click handler registered. */
  function StartRound(g: Game): (r: Game)
    requires Inv(g.(phase := Reviewing, results := Some(Results(false, 0, 0, 0)))) && g.highlighted == []
    requires g.score <= SCORE_PER_QUESTION * (g.round - 1)
    ensures Inv(r) && r.phase == Asking && r.highlightMode
    ensures r.round == g.round && r.questionIndex == g.questionIndex && r.score == g.score
    ensures r.bar.round == Some(RoundLabel(g.round, g.maxRound)) && r.bar.score == Some(g.score)
  {
    var question := g.questions[g.questionIndex];
    var bar := UpdateOverlay(g.bar, Some(question.properties.NAME), Some(g.round), g.maxRound, Some(g.score));
    g.(highlightMode := true, bar := bar, clickArmed := true, phase := Asking)
  }

  /** The assignments of `startGame` once the countries are drawn. */
  function Begin(g: Game, items: seq<Feature>): (r: Game)
    requires Inv(g) && g.phase.Idle? && |items| > 0
    ensures Inv(r) && r.phase == Asking
    ensures r.questions == items && r.round == 1 && r.maxRound == |items| && r.score == 0
  {
    StartRound(g.(questions := items, questionIndex := 0, round := 1, maxRound := |items|, score := 0))
  }

  /** `startGame(numQuestions = 5)`, reachable once from the start screen:
      the drawn countries become the questions and round 1 starts. A
      draw that throws leaves the state as it was. */
  function Start(data: EarlyGeoData.EarlyGeoData, g: Game, num: Option<int>, randoms: seq<real>): (r: Outcome)
    requires Inv(g) && Sampling.IsRandomStream(randoms)
    requires data.numCountries == |data.countries|
    ensures Inv(r.game)
    ensures !g.phase.Idle? ==> r == Outcome(g, None)
    ensures var n := if num.Some? then num.value else NUM_QUESTIONS_PER_GAME;
            g.phase.Idle? ==>
              (r.thrown.Some? <==> n <= 0 || data.numCountries == 0) &&
              (r.thrown.Some? ==> r.game == g) &&
              (r.thrown.None? ==> r.game.phase.Asking? || r.game == g.(phase := Frozen))
    ensures var n := if num.Some? then num.value else NUM_QUESTIONS_PER_GAME;
            g.phase.Idle? && r.game.phase.Asking? ==>
              r.game.round == 1 && r.game.maxRound == n && r.game.score == 0 &&
              forall x :: x in r.game.questions ==> x in data.countries
  {
    if !g.phase.Idle? then Outcome(g, None)
    else
      var n := if num.Some? then num.value else NUM_QUESTIONS_PER_GAME;
      match EarlyGeoData.GetRandomCountries(data, n, randoms)
      case Throw(e) => Outcome(g, Some(e))
      case Ok(Hung) => Outcome(g.(phase := Frozen), None)
      case Ok(Picked(items)) => Outcome(Begin(g, items), None)
  }

  /** The click handler of `startRound` as written. The controller's
      globe is the third-generation `GeoGlobe`, whose `highlightCountry`
      reads `.properties.NE_ID` of its first argument; the handler passes
      the asked country's `ISO_A3` string, which has no `properties`. So
      after unregistering itself and leaving highlight mode the handler
      throws, before any highlight, score or result dialog. */
  function OnClickAsWritten(g: Game, country: Feature): (r: Outcome)
    requires Inv(g)
    ensures Inv(r.game)
    ensures !g.clickArmed ==> r == Outcome(g, None)
    ensures g.clickArmed ==>
              r.thrown.Some? && r.game.phase == Stalled && !r.game.clickArmed && !r.game.highlightMode &&
              r.game.round == g.round && r.game.score == g.score && r.game.highlighted == g.highlighted &&
              r.game.results == g.results
  {
    if !g.clickArmed then Outcome(g, None)
    else
      // `computeResults` runs first but its result is lost with the throw.
      Outcome(g.(clickArmed := false, highlightMode := false, phase := Stalled),
              Some("TypeError: Cannot read property 'NE_ID' of undefined"))
  }

  /** As written, no click ever scores: even the asked country itself
      leaves the score where it was, where the corrected handler adds the
      round's 100 points; and afterwards neither a click nor the next
      button moves the game on. */
  lemma ClickNeverScoresAsWritten(g: Game, country: Feature)
    requires Inv(g) && g.phase == Asking
    ensures var o := OnClickAsWritten(g, g.questions[g.questionIndex]);
            o.thrown.Some? && o.game.score == g.score && o.game.highlighted == [] &&
            OnClick(g, g.questions[g.questionIndex]).score == g.score + SCORE_PER_QUESTION &&
            OnClickAsWritten(o.game, country) == Outcome(o.game, None) && OnNext(o.game) == o.game
  {
  }

  /** The click handler of `startRound` as evidently intended, against a
      highlight registry keyed by `ISO_A3` code (the one the call passes):
      it unregisters itself, leaves highlight mode, scores the clicked
      country, highlights the asked code green, and either adds the
      round's score or highlights the clicked code red. */
  function OnClick(g: Game, country: Feature): (r: Game)
    requires Inv(g)
    ensures Inv(r)
    ensures !g.clickArmed ==> r == g
    ensures g.clickArmed ==>
              var results := ComputeResults(g.questions[g.questionIndex], country);
              r.phase == Reviewing && !r.highlightMode && r.results == Some(results) &&
              r.round == g.round && r.score == g.score + results.total &&
              (results.correct ==> r.bar.score == Some(r.score))
  {
    if !g.clickArmed then g
    else
      var question := g.questions[g.questionIndex];
      var results := ComputeResults(question, country);
      var green := EMG.HighlightCountry(g.highlighted, question.properties.ISO_A3, "green");
      var g1 := g.(clickArmed := false, highlightMode := false, results := Some(results), phase := Reviewing);
      assert Answered(g) == g.round - 1 && Answered(g1) == g.round;
      if results.correct then
        var score := g.score + results.total;
        g1.(highlighted := green, score := score, bar := UpdateOverlay(g.bar, None, None, g.maxRound, Some(score)))
      else
        g1.(highlighted := EMG.HighlightCountry(green, country.properties.ISO_A3, "red"))
  }

  /** `endGame`: the bar shows 'GG'. */
  function EndGame(g: Game): (r: Game)
    requires Inv(g.(phase := Over))
    ensures Inv(r) && r.phase == Over && r.score == g.score
    ensures r.bar.question == Some("GG") && r.bar.score == g.bar.score && r.bar.round == g.bar.round
  {
    g.(clickArmed := false, bar := UpdateOverlay(g.bar, Some("GG"), None, g.maxRound, None), phase := Over)
  }

  /** The result dialog's next button: highlights are cleared, and the
      round counter decides between the next round and the end. */
  function OnNext(g: Game): (r: Game)
    requires Inv(g)
    ensures Inv(r)
    ensures !g.phase.Reviewing? ==> r == g
    ensures g.phase.Reviewing? ==>
              r.highlighted == [] && r.score == g.score &&
              (g.round < g.maxRound ==> r.phase == Asking && r.round == g.round + 1 && r.questionIndex == g.questionIndex + 1) &&
              (g.round == g.maxRound ==> r.phase == Over && r.round == g.round)
  {
    if !g.phase.Reviewing? then g
    else
      var g1 := g.(highlighted := EMG.ClearHighlightedCountries(g.highlighted));
      if g.round < g.maxRound then StartRound(g1.(round := g.round + 1, questionIndex := g.questionIndex + 1))
      else EndGame(g1)
  }

  predicate WellFormed(e: Event) {
    e.StartGame? ==> Sampling.IsRandomStream(e.randoms)
  }

  /** One event delivered to the controller. */
  function Step(data: EarlyGeoData.EarlyGeoData, g: Game, e: Event): (r: Outcome)
    requires Inv(g) && WellFormed(e) && data.numCountries == |data.countries|
    ensures Inv(r.game)
  {
    match e
    case StartGame(num, randoms) => Start(data, g, num, randoms)
    case Click(_, country) => Outcome(OnClick(g, country), None)
    case Next => Outcome(OnNext(g), None)
  }

  /** A round takes at most one click: the handler unregisters itself
      before anything else, so a second click changes nothing. */
  lemma OneClickPerRound(data: EarlyGeoData.EarlyGeoData, g: Game, c1: Feature, c2: Feature, p1: LonLat, p2: LonLat)
    requires Inv(g) && data.numCountries == |data.countries|
    ensures var g1 := Step(data, g, Click(p1, c1)).game;
            Step(data, g1, Click(p2, c2)) == Outcome(g1, None)
  {
  }

  /** After a click the asked code is green, the clicked code is red
      exactly when it differs, and no code is both. */
  lemma HighlightsAfterClick(g: Game, country: Feature, d: Feature)
    requires Inv(g) && g.phase == Asking
    ensures var r := OnClick(g, country);
            var question := g.questions[g.questionIndex];
            (EMG.IsHighlightedCountry(r.highlighted, d, "green") <==>
               d.properties.ISO_A3 == question.properties.ISO_A3) &&
            (EMG.IsHighlightedCountry(r.highlighted, d, "red") <==>
               country.properties.ISO_A3 != question.properties.ISO_A3 &&
               d.properties.ISO_A3 == country.properties.ISO_A3) &&
            !(EMG.IsHighlightedCountry(r.highlighted, d, "green") && EMG.IsHighlightedCountry(r.highlighted, d, "red"))
  {
    var question := g.questions[g.questionIndex];
    var green := EMG.HighlightCountry([], question.properties.ISO_A3, "green");
    HighlightAdds([], question.properties.ISO_A3, "green", d.properties.ISO_A3, "green");
    HighlightAdds([], question.properties.ISO_A3, "green", d.properties.ISO_A3, "red");
    HighlightAdds(green, country.properties.ISO_A3, "red", d.properties.ISO_A3, "green");
    HighlightAdds(green, country.properties.ISO_A3, "red", d.properties.ISO_A3, "red");
  }

  /** Correctness is decided by the code alone: a different country
      that shares the asked country's `ISO_A3` earns the full score. */
  lemma SharedCodeCountsAsCorrect(g: Game, country: Feature)
    requires Inv(g) && g.phase == Asking
    requires country != g.questions[g.questionIndex]
    requires country.properties.ISO_A3 == g.questions[g.questionIndex].properties.ISO_A3
    ensures OnClick(g, country).score == g.score + SCORE_PER_QUESTION
  {
  }

  /** The final score is a multiple of 100 between 0 and 100 per round. */
  lemma FinalScore(g: Game)
    requires Inv(g) && g.phase == Over
    ensures g.score % SCORE_PER_QUESTION == 0 && 0 <= g.score <= SCORE_PER_QUESTION * g.maxRound
  {
  }
}
