/**
 * The bits of the game controllers that only feed the on-screen info
 * bar and the frame-rate counter, shared by both generations.
 */
module GameInfo {
  import opened Base

  /** Milliseconds between two frame-rate readings. */
  const FPS_UPDATE_INTERVAL: int := 500

  /** What the frame-rate counter shows. */
  datatype FpsReading = Fps(value: int) | IdleReading

  /** `updateFPSCounter`: the draws counted since the last reading turned
      into frames per second, or 'idle' when there were none; the count
      is then cleared. */
  datatype FpsUpdate = FpsUpdate(reading: FpsReading, numDraws: int)

  function UpdateFpsCounter(numDraws: int): (r: FpsUpdate)
    ensures r.numDraws == 0
    ensures r.reading.IdleReading? <==> numDraws == 0
    ensures numDraws != 0 ==> r.reading == Fps(2 * numDraws)
    ensures r.reading.Fps? ==> r.reading.value * FPS_UPDATE_INTERVAL == 1000 * numDraws
  {
    if numDraws == 0 then FpsUpdate(IdleReading, 0)
    else
      var perSecond := 1000.0 * numDraws as real / FPS_UPDATE_INTERVAL as real;
      // With a half-second interval nothing is lost to rounding.
      assert perSecond == (2 * numDraws) as real;
      RoundIntegral(2 * numDraws);
      FpsUpdate(Fps(Round(perSecond)), 0)
  }

  /** The round field: `round + '/' + total`. */
  datatype RoundLabel = RoundLabel(round: int, total: int)

  /** The prompt line the third generation sets on every update. */
  datatype Prompt = QuestionPrompt | EndGamePrompt

  /** The info bar's fields, `None` until first set. */
  datatype InfoBar = InfoBar(question: Option<string>, round: Option<RoundLabel>, score: Option<int>, prompt: Option<Prompt>)

  const EMPTY_BAR: InfoBar := InfoBar(None, None, None, None)

  /** JavaScript truthiness of a question name: `null` and `''` are falsy. */
  predicate TruthyString(s: Option<string>) {
    s.Some? && |s.value| > 0
  }

  /** JavaScript truthiness of a round number: `null` and `0` are falsy. */
  predicate TruthyInt(n: Option<int>) {
    n.Some? && n.value != 0
  }

  /** `updateOverlay(question, round, score)`: the question and round are
      shown only when truthy, the score whenever it is not `null`, so a
      score of 0 is shown; the prompt is left alone. */
  function UpdateOverlay(bar: InfoBar, question: Option<string>, round: Option<int>, total: int, score: Option<int>): (r: InfoBar)
    ensures r.question == (if TruthyString(question) then question else bar.question)
    ensures r.round == (if TruthyInt(round) then Some(RoundLabel(round.value, total)) else bar.round)
    ensures r.score == (if score.Some? then score else bar.score)
    ensures r.prompt == bar.prompt
  {
    var b1 := if TruthyString(question) then bar.(question := question) else bar;
    var b2 := if TruthyInt(round) then b1.(round := Some(RoundLabel(round.value, total))) else b1;
    if score.Some? then b2.(score := score) else b2
  }

  /** The third generation's `updateOverlay(question, round, score, gameover)`:
      as above, and the prompt becomes the end-of-game prompt exactly when
      `gameover` is truthy. */
  function UpdateOverlayWithPrompt(bar: InfoBar, question: Option<string>, round: Option<int>, total: int,
                                   score: Option<int>, gameover: bool): (r: InfoBar)
    ensures r.(prompt := bar.prompt) == UpdateOverlay(bar, question, round, total, score)
    ensures r.prompt == Some(if gameover then EndGamePrompt else QuestionPrompt)
  {
    UpdateOverlay(bar, question, round, total, score).(prompt := Some(if gameover then EndGamePrompt else QuestionPrompt))
  }

  /** A zero score still reaches the bar, while an empty name or a zero
      round does not replace what is shown. */
  lemma ZeroScoreShownEmptyNameNot(bar: InfoBar, total: int)
    ensures var r := UpdateOverlay(bar, Some(""), Some(0), total, Some(0));
            r.score == Some(0) && r.question == bar.question && r.round == bar.round
  {
  }
}
