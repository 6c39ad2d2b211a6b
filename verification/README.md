# geo-game in Dafny

geo-game is a browser game. It shows a 3D globe built on d3 and names a country, and the player clicks where they think it is. This project models the logic behind the game as pure Dafny functions and proves properties of them. Two generations of the game live side by side in the repository, and both are modelled, each on its own terms:

- **Scoring and identity** (`Questions`, `GeoData`, `EarlyGeoData`, `Sampling`):
  - a question is answered with a location and perhaps a country;
  - it earns an accuracy bonus, a proximity score from the nearest outer-ring vertex of the asked country, and an adjacency bonus;
  - countries are identified by `ADM0_A3`, or by `SOV_A3` for a dependency;
  - the question pool is the sovereign countries plus the countries that are their own sovereign;
  - questions are drawn by a rejection sampler over `Math.random()`.
- **Projection controllers** (`Projection`, `EarlyGlobe`, `EarlyInteractiveGlobe`, `InteractiveGlobe`):
  - the drag, wheel and zoom handlers of the three globe generations, with their clamps and throttles;
  - the auto-rotate interval;
  - the transitions that rotate to a location or zoom out, with the flags they raise and restore;
  - the data-resolution choice.
- **Overlay registries** (`Overlays`, `ModifiableGlobe`, `EarlyModifiableGlobe`):
  - the points list, the highlight lists and the small-country circles;
  - the `on(event, cb)` handler registry, and how a click reaches it.
- **Round and score machines** (`Game`, `EarlyGame`, `GameInfo`):
  - each `GeoGame` is an event-driven state machine over start, click, timeout and next;
  - an invariant ties the running score to the answered questions, and the one-shot click handler to the phase;
  - the info bar and frame-rate counter updates.
- **Offline data transforms** (`DataPrep`):
  - the eligibility lists, the property stripping and the id-keyed feature map written by `optimizeNEData.js`;
  - the name-to-id conversion of the adjacency file written by `adjacency.js`.

The repository wires them together as follows. `src/index.js` runs the first-generation `src/geogame.js` with `src/geodata.js`. That game draws on the third-generation `GeoGlobe` (`src/globe/geoglobe.js`), which extends `src/globe/modifiableglobe.js`. Nothing in the repository reaches the second-generation `src/interactiveglobe.js` and `src/modifiableglobe.js`; they are modelled as written.

How JavaScript behaviour is rendered:

- **Exceptions.** A thrown string becomes `Result.Throw(message)`. Where a handler mutates state before throwing, the step returns an `Outcome` that keeps the partial state together with the message.
- **`null` and `undefined`.** These become `Option`, or `Slot` where the two differ.
- **Randomness.** `Math.random()` is a finite stream of reals in [0, 1). A sampler that cannot finish within the stream is reported as `Starved` or `Hung`. When more distinct values are requested than exist, no stream lets it finish.
- **Geometry and curves.** `d3.geoDistance`, `geoCentroid`, `geoArea`, `geoBounds`, the projection and the horizon waypoint are function parameters (`Geodesy`, `Screen`). So are the exponential proximity curve and the exp/log scale curve. Nothing is assumed of them beyond their types, except where a lemma states a hypothesis such as non-negative distances.
- **Timers and callbacks.** `setTimeout`, `d3.interval`, the question timer and the result dialog's button are events delivered to a `Step` function.

Where the code and its design intent disagree, the model follows the code:

- `stopAutoRotate` throws while no timer has been started. `Stop`, `StopBeforeStartThrows` and `DragStartBeforeAutoRotateThrows` show it.
- The third generation's raw `wheel` listener stays attached during a transition (`WheelDuringTransition`).
- `rotateToLocation` does not clamp latitude (`RotateToLocationIgnoresLatitudeBound`).
- A scored answer stores `undefined` as its closest point. The code destructures a `closestPoint` key that `getClosestPointInCountry` never returns, and no code reads the field.
- `QuestionSet.isAnswered` always answers true (see Findings).
- The first generation's click handler throws once it has unregistered itself, before it adds any score (see Findings). Its steps use the handler as evidently intended, and the as-written handler is modelled beside it.

## Model

| member | source | states |
|---|---|---|
| Base.Round | src/game/geogame.js:79 | `Math.round` is within half a unit of its argument, with ties rounded up |
| Base.RoundIntegral | src/game/questions.js:197 | rounding an integral value returns it unchanged |
| Seqs.Filter | src/game/geodata.js:126-137 | `filter` keeps exactly the members satisfying the test, never more than the input |
| Seqs.FilterConcat | src/game/geodata.js:125-126 | filtering a concatenation is the concatenation of the filtered parts, so relative order is kept |
| Seqs.FilterAll | src/game/geodata.js:126-137 | when every element passes, filtering returns the input |
| Seqs.FirstIndex | src/globe/modifiableglobe.js:89 | `findIndex` returns the first index satisfying the test, and none exactly when no element does |
| Seqs.Find | src/game/geodata.js:24 | `find` yields a member satisfying the test exactly when one exists, and that member is the first one that does |
| Seqs.RemoveAt | src/globe/modifiableglobe.js:92 | `splice(i, 1)` drops exactly element `i` and shifts the rest down, as a multiset difference |
| Seqs.Dedup | src/game/geodata.js:57-61 | dropping repeats leaves a repeat-free sequence with the same members |
| Seqs.LastWins | data/optimizeNEData.js:51-52 | building an object by assignment in a loop has every element's key, the last element's value winning |
| Seqs.LastWinsKeys | data/adjacency.js:7-8 | every key of such an object comes from some element |
| Seqs.LastWinsValue | data/adjacency.js:7-8 | a key holds the value of the last element carrying it |
| Seqs.Map | data/optimizeNEData.js:29-30 | `map` applies the function pointwise and keeps the length |
| GeoData.CountryId | src/game/geodata.js:8-21 | a dependency is identified by `SOV_A3` and the other four known types by `ADM0_A3`; any other type throws |
| GeoData.IsSameCountry | src/game/geodata.js:2-6 | two features are the same country exactly when their identities agree; it throws when either type is unknown |
| GeoData.DependencyMatchesSovereign | src/game/geodata.js:16-17 | a dependency counts as the same country as its sovereign state, in both directions |
| GeoData.SameCountryIsEquivalence | src/game/geodata.js:2-6 | on known types, `isSameCountry` is reflexive, symmetric and transitive |
| GeoData.IsAdjacentCountry | src/game/geodata.js:27-34 | a missing adjacency list is reported separately from a list without the second country; a found result carries the second country's id |
| GeoData.AdjacencyTruthyIffListed | src/game/geodata.js:27-34 | the adjacency bonus test is truthy exactly when the first country's list names the second |
| GeoData.PartitionByType | src/game/geodata.js:96-117 | the load-time sort succeeds exactly when every feature has one of the five known types |
| GeoData.PartitionIsFilters | src/game/geodata.js:96-117 | each of the five lists holds exactly the features of its type, in dataset order |
| GeoData.KeepForQuestions | src/game/geodata.js:126-137 | the eligibility callback throws except on countries and sovereign countries, and otherwise keeps exactly the eligible ones |
| GeoData.FilterKept | src/game/geodata.js:126-137 | a filter whose callback never throws on the input equals the plain eligibility filter |
| GeoData.FilterCountriesEligible | src/game/geodata.js:129-131 | filtering the countries for eligibility keeps exactly the countries that are their own sovereign |
| GeoData.TypesOfFiltered | src/game/geodata.js:96-117 | the sovereign and country lists hold only features of their own type |
| GeoData.EligibleJoined | src/game/geodata.js:125-137 | the eligibility filter over sovereigns followed by countries keeps every sovereign, then the self-governing countries |
| GeoData.EligiblePool | src/game/geodata.js:125-137 | the question pool exists exactly when all types are known, and it is the sovereigns followed by the self-governing countries, in dataset order |
| GeoData.GetRandomCountries | src/game/geodata.js:36-38 | throws exactly for a non-positive count or empty pool; a finished draw has the requested length, every drawn country is `pool[i]` for the `i`-th sampled index (so a pool entry), and the ids are pairwise distinct when the pool's ids are |
| GeoData.FindCountry | src/game/geodata.js:23-25 | finds a pool member with that `NE_ID` exactly when one exists, and it is the first such member |
| EarlyGeoData.Load | src/geodata.js:2-5 | the instance holds exactly the 'Country' and 'Sovereign country' features, and its count is their number |
| EarlyGeoData.LoadConcat | src/geodata.js:3 | loading keeps dataset order across concatenated inputs |
| EarlyGeoData.FindCountry | src/geodata.js:7-9 | finds the first country with that `ISO_A3`, and nothing exactly when none has it |
| EarlyGeoData.GetRandomCountries | src/geodata.js:11-21 | throws exactly for a non-positive count or no countries; a finished draw has the requested length, and its `j`-th country is `countries[i]` for the `j`-th sampled index `i` (so one of the instance's countries) |
| EarlyGeoData.RandomCountriesDistinctCodes | src/geodata.js:11-13 | when the countries' `ISO_A3` codes are pairwise distinct, so are the drawn countries' codes |
| Sampling.ScaledDrawBelow | src/game/geodata.js:71 | a draw in [0, 1) scaled by a positive bound lies in [0, bound) |
| Sampling.RandomInt | src/game/geodata.js:70-72 | `getRandomInt(max)` lies in [0, max) for a valid draw and positive bound |
| Sampling.Draws | src/game/geodata.js:58 | a stream of draws turns into integers pointwise |
| Sampling.DrawsInRange | src/game/geodata.js:70-72 | every integer drawn from a valid stream lies in [0, max) |
| Sampling.DrawsExtend | src/game/geodata.js:57-61 | one more draw appends one integer |
| Sampling.Collect | src/game/geodata.js:57-61 | the rejection loop stops with exactly the requested count, the distinct draws so far in first-seen order, or runs out of draws short of it |
| Sampling.DedupInRange | src/game/geodata.js:59-60 | rejecting repeats keeps values in range |
| Sampling.SampleInRange | src/game/geodata.js:57-61 | every sampled value, finished or starved, is in range |
| Sampling.UniqueRandomArr | src/game/geodata.js:48-64 | throws 'numElems < 0' or 'max < 0' on its guards; otherwise returns distinct in-range values, exactly the requested number when it finishes |
| Sampling.Below | src/game/geodata.js:48-64 | the set of integers below `n` has `n` elements |
| Sampling.DistinctCard | src/game/geodata.js:59-60 | a repeat-free sequence has as many distinct members as entries |
| Sampling.SubsetCard | src/game/geodata.js:48-64 | a subset is no larger than its superset |
| Sampling.DistinctInRangeBound | src/game/geodata.js:57-61 | at most `max` distinct values fit in [0, max) |
| Sampling.UniqueRandomArrNeverFinishesWhenTooMany | src/game/geodata.js:48-64 | asking for more distinct values than the range holds never finishes, on any stream |
| Sampling.RandomArr | src/game/geodata.js:66-68 | `getRandomArr` throws exactly on a negative length, and otherwise has one independent draw per entry |
| Sampling.RandomArrMayRepeat | src/game/geodata.js:66-68 | unlike the unique sampler, `getRandomArr` may repeat a value |
| Sampling.Pick | src/game/geodata.js:36-38 | throws exactly for a non-positive count or empty pool; a finished pick maps each sampled index to its pool entry |
| Sampling.PickDistinctIdentities | src/game/geodata.js:36-38 | distinct indices into a pool without repeated identities give pairwise distinct identities |
| Sampling.PickOne | src/game/geodata.js:40-42 | `getRandomCountry` yields a pool member, or `undefined` exactly when the pool is empty |
| Questions.ClosestPointInPolygon | src/game/questions.js:160-176 | the ring search never exceeds 2 pi, and reports no point exactly in its initial state |
| Questions.ClosestInRing | src/game/questions.js:160-176 | the ring search returns a lower bound on every vertex's distance, attained by the first nearest vertex; it finds nothing exactly when no vertex is nearer than 2 pi |
| Questions.Nearer | src/game/questions.js:145-148 | a part's result replaces the best only when strictly nearer, so the result is no farther than either |
| Questions.ClosestPart | src/game/questions.js:139-154 | the multipolygon search succeeds exactly when every part has an outer ring, and stays within 2 pi |
| Questions.ClosestPartIsLowerBound | src/game/questions.js:139-154 | the multipolygon result is no farther than any part's outer-ring result |
| Questions.ClosestPartIsFirst | src/game/questions.js:139-154 | a found multipolygon point comes from the first part attaining the minimum |
| Questions.ClosestPointInCountry | src/game/questions.js:135-158 | the search succeeds exactly on searchable geometry, throwing 'unknown geomtery type' on other types |
| Questions.ClosestIsLowerBound | src/game/questions.js:135-158 | the distance found is at most the distance to every outer-ring vertex of every part |
| Questions.SinglePartLikePolygon | src/game/questions.js:138-144 | a one-part multipolygon is searched exactly like the polygon it wraps |
| Questions.FloorAtZero | src/game/questions.js:199 | a negative score becomes 0; a non-negative score is kept unchanged, so a positive result is the score itself |
| Questions.CurveFactors | src/game/questions.js:193-197 | the quadratic's coefficients factor it with roots at 5 pi / 9 and pi |
| Questions.MulSigns | src/game/questions.js:184-200 | a non-negative times a non-positive is non-positive |
| Questions.RoundMonotone | src/game/questions.js:197 | `Math.round` is monotone |
| Questions.QuadraticAnchors | src/game/questions.js:184-200 | the quadratic scores 100 at distance 0, 5 at pi/2 and 0 at pi |
| Questions.QuadraticMonotone | src/game/questions.js:184-200 | between 0 and pi a nearer answer never scores less on the quadratic curve |
| Questions.NewQuestion | src/game/questions.js:6-23 | a new question is unanswered and incorrect, with every score 0 and the country's centroid |
| Questions.EmptyAnswer | src/game/questions.js:38-46 | an empty answer earns a zero score that matches the stored fields, and is not correct |
| Questions.OceanAnswer | src/game/questions.js:48-63 | an ocean answer earns only proximity, from the closest-point distance, and throws exactly on unsearchable geometry |
| Questions.ComputeScore | src/game/questions.js:65-88 | the right country earns 20 + 100 + 0 = 120; a wrong one earns the curve plus 5 when adjacent; it throws exactly when the search or identity test does; the total is the sum of the parts |
| Questions.Answer | src/game/questions.js:25-36 | records the answer, then dispatches to empty, ocean or country scoring; throws exactly in those paths' cases; the right country exactly earns the accuracy bonus |
| Questions.ClosestNonNegative | src/game/questions.js:135-158 | with non-negative distances the closest distance is non-negative |
| Questions.AnswerScoreBounded | src/game/questions.js:214-223 | every answer's total lies in [0, `MAX_SCORE`], and a right answer reaches `MAX_SCORE` |
| Questions.NewQuestionSet | src/game/questions.js:232-240 | a question set throws exactly for a non-positive count or empty pool; it holds the requested number of fresh questions, the `i`-th about `pool[j]` for the `i`-th sampled index `j`, in the order drawn |
| Questions.GetTotalScore | src/game/questions.js:258-262 | the `forEach` accumulation is the sum of the per-question totals |
| Questions.SumTotalsBounded | src/game/questions.js:258-262 | totals in [0, `MAX_SCORE`] sum to at most `MAX_SCORE` per question |
| Questions.IsAnswered | src/game/questions.js:250-256 | as written, `isAnswered` is true for every set, and it disagrees with the intended check only when some question is unanswered |
| Questions.AllAnswered | src/game/questions.js:250-256 | the intended check is true exactly when every question is answered |
| Questions.FirstUnanswered | src/game/questions.js:250-256 | finds an unanswered question exactly when not all are answered |
| Questions.IsAnsweredBeforeAnyAnswer | src/game/questions.js:250-256 | a fresh one-question set already reports itself answered |
| Projection.ClampMaxThenMin | src/globe/interactiveglobe.js:101-102 | the two ternaries keep the value within the bounds, unchanged when already inside |
| Projection.ClampIfElse | src/globe.js:136-139 | the if/else clamp keeps latitude within the bounds, unchanged when already inside |
| Projection.ClampsAgree | src/globe.js:136-139 | with ordered bounds the two clamping styles agree |
| Projection.GetData | src/globe/interactiveglobe.js:253-272 | the detailed 50m data is drawn only when not zooming and the scale is at least 1000 |
| Projection.GetDataMonotone | src/globe/interactiveglobe.js:257 | a larger scale or a finished zoom never lowers detail |
| Projection.AutoRotateTick | src/globe/interactiveglobe.js:237-244 | one tick moves only the longitude, by half a degree, backwards when counter-clockwise |
| Projection.TicksTurnLongitudeOnly | src/globe/interactiveglobe.js:237-244 | after `n` ticks the longitude has moved `n` half degrees and nothing else |
| Projection.TargetRotation | src/globe/interactiveglobe.js:133-135 | the target rotation centres the location, with zero roll |
| Projection.TargetRoundTrip | src/globe/interactiveglobe.js:133-135 | centring and reading back the centre are inverse |
| EarlyGlobe.ComputeRotation | src/globe.js:126-143 | a drag moves longitude and latitude in proportion to cursor travel, keeps roll, and clamps latitude to 90 degrees |
| EarlyGlobe.WheelScale | src/globe.js:81-95 | a wheel turn changes the scale by a sixth, in for a negative delta, clamped to [200, 1500] |
| EarlyGlobe.ZeroDeltaZoomsOut | src/globe.js:86-89 | a wheel event with zero delta zooms out |
| EarlyGlobe.WheelInOutNotInverse | src/globe.js:83-89 | zooming in then out does not return to the starting scale |
| EarlyGlobe.Step | src/globe.js:59-95 | mouse-down records the cursor; a qualifying move rotates, and throws exactly before any mouse-down; a wheel turn rescales only |
| EarlyGlobe.StepKeepsBounds | src/globe.js:171-180 | every successful listener call keeps latitude within 90 degrees and scale in range |
| EarlyGlobe.DownThenMove | src/globe.js:59-78 | a mouse-down followed by a qualifying move rotates by exactly the cursor's travel |
| EarlyInteractiveGlobe.ConstrainK | src/interactiveglobe.js:26 | the zoom factor d3 reports stays within the scale extent, unchanged inside it |
| EarlyInteractiveGlobe.ComputeScale | src/interactiveglobe.js:89-91 | the wheel scale is the initial scale times the factor, within [300, 3500] |
| EarlyInteractiveGlobe.ExtentScales | src/interactiveglobe.js:26 | the scale extent times the initial scale is [300, 3500] |
| EarlyInteractiveGlobe.TargetLocation | src/interactiveglobe.js:107-110 | a feature target rotates to its centroid, and a `[lon, lat]` target to itself |
| EarlyInteractiveGlobe.NewGlobe | src/interactiveglobe.js:12-68 | a new globe is flagged but not attached for interaction, with auto-rotation flagged and no timer |
| EarlyInteractiveGlobe.Stop | src/interactiveglobe.js:207-210 | `stopAutoRotate` clears the flag, touches nothing else, and throws exactly while no timer exists |
| EarlyInteractiveGlobe.ZoomStep | src/interactiveglobe.js:27-49 | a wheel zoom sets only the scale, and a drag rotates unless throttled; nothing happens while detached |
| EarlyInteractiveGlobe.Disable | src/interactiveglobe.js:180-183 | disabling raises the flag and detaches the listeners |
| EarlyInteractiveGlobe.Enable | src/interactiveglobe.js:185-189 | enabling lowers the flag and attaches the listeners |
| EarlyInteractiveGlobe.RotateStep | src/interactiveglobe.js:107-174 | a rotation disables interaction, selects coarse data and queues a 1000 ms transition to the centring rotation |
| EarlyInteractiveGlobe.DoneStep | src/interactiveglobe.js:166-173 | a completed, uninterrupted rotation reaches its target, restores data and interaction, and runs the callback once |
| EarlyInteractiveGlobe.Step | src/interactiveglobe.js:25-210 | every handler keeps the initial scale; only drag start and stop can throw; the bounds hold for in-bounds targets |
| EarlyInteractiveGlobe.WheelIgnoredWhileDisabled | src/interactiveglobe.js:180-183 | a wheel event while detached changes nothing |
| EarlyInteractiveGlobe.WheelChangesOnlyScale | src/interactiveglobe.js:28-35 | a wheel zoom leaves rotation and the drag state unchanged |
| EarlyInteractiveGlobe.RotateToFeature | src/interactiveglobe.js:107-174 | rotating to a feature centres its centroid and restores the flags on completion |
| EarlyInteractiveGlobe.DragStartBeforeAutoRotateThrows | src/interactiveglobe.js:50-57 | the first drag start before any auto-rotation throws on the null timer |
| InteractiveGlobe.NewGlobe | src/globe/interactiveglobe.js:6-86 | the fitted scale becomes the minimum scale; interaction is flagged but detached; auto-rotation is flagged with no timer |
| InteractiveGlobe.ComputeRotation | src/globe/interactiveglobe.js:89-105 | a drag turns by the transform's travel times 90 / scale, keeps roll, and clamps latitude to 66.5 degrees |
| InteractiveGlobe.ComputeScale | src/globe/interactiveglobe.js:107-116 | the wheel moves along the scale curve, clamped to [fitted scale, 3500] |
| InteractiveGlobe.Stop | src/globe/interactiveglobe.js:247-250 | `stopAutoRotate` clears the flag, stops the timer, changes nothing else, and throws exactly while no timer exists |
| InteractiveGlobe.StopIfRotating | src/globe/interactiveglobe.js:39-40 | handlers stop auto-rotation only when flagged, throwing exactly then without a timer |
| InteractiveGlobe.Disable | src/globe/interactiveglobe.js:219-222 | disabling raises the flag and detaches the drag listeners |
| InteractiveGlobe.Enable | src/globe/interactiveglobe.js:224-229 | enabling lowers the flag and attaches the drag listeners |
| InteractiveGlobe.IsInteractionEnabled | src/globe/interactiveglobe.js:215-217 | the accessor returns the raw flag, true while interaction is disabled |
| InteractiveGlobe.StartTransition | src/globe/interactiveglobe.js:175-178 | a transition raises `isZooming`, disables interaction and queues its completion without moving the view |
| InteractiveGlobe.FinishTransition | src/globe/interactiveglobe.js:205-212 | a completion whose tweens were not interrupted reaches their targets; every completion lowers `isZooming`, re-enables interaction and runs the callback once |
| InteractiveGlobe.WheelStep | src/globe/interactiveglobe.js:35-53 | the wheel stops a flagged auto-rotation, then rescales along the curve; it throws exactly when flagged without a timer |
| InteractiveGlobe.DragStep | src/globe/interactiveglobe.js:57-67 | a drag update rotates and records the transform unless throttled by the 20 ms interval |
| InteractiveGlobe.TickStep | src/globe/interactiveglobe.js:237-244 | a timer tick changes neither scale nor latitude |
| InteractiveGlobe.DoneStep | src/globe/interactiveglobe.js:205-212 | a completion timeout keeps the fitted scale and the bounds |
| InteractiveGlobe.ZoomStartStep | src/globe/interactiveglobe.js:68-75 | drag start selects coarse data and stops a flagged auto-rotation, throwing exactly when flagged without a timer |
| InteractiveGlobe.ZoomEndStep | src/globe/interactiveglobe.js:76-81 | drag end returns to scale-based data selection |
| InteractiveGlobe.StartAutoRotateStep | src/globe/interactiveglobe.js:235-245 | `startAutoRotate` flags rotation and holds a fresh running interval |
| InteractiveGlobe.TransitionStep | src/globe/interactiveglobe.js:148-213 | a new transition queues behind the pending ones with the flags raised |
| InteractiveGlobe.StopKeepsView | src/globe/interactiveglobe.js:247-250 | `stopAutoRotate` changes only the auto-rotation state |
| InteractiveGlobe.Step | src/globe/interactiveglobe.js:35-250 | every handler keeps the fitted scale; only wheel, drag start and stop throw; in-bounds targets keep the view in bounds |
| InteractiveGlobe.Run | src/globe/interactiveglobe.js:35-250 | a run of events keeps what every handler keeps, despite exceptions |
| InteractiveGlobe.RunKeepsBounds | src/globe/interactiveglobe.js:276-280 | inputs that never rotate beyond 66.5 degrees keep the view in bounds |
| InteractiveGlobe.RotateToLocationIgnoresLatitudeBound | src/globe/interactiveglobe.js:132-140 | rotating to 80 degrees south leaves the latitude beyond the drag bound |
| InteractiveGlobe.TransitionSequencing | src/globe/interactiveglobe.js:148-213 | during a transition data is coarse and interaction off; completion restores both and runs the callback once |
| InteractiveGlobe.WheelDuringTransition | src/globe/interactiveglobe.js:35-53 | a wheel turn mid-transition still rescales, and returns data selection to scale-based |
| InteractiveGlobe.StopBeforeStartThrows | src/globe/interactiveglobe.js:84-85 | before `startAutoRotate`, stopping throws, and the first wheel turn throws after clearing the flag |
| InteractiveGlobe.TransitionTargets | src/globe/interactiveglobe.js:132-146 | `zoomOut` targets the fitted scale over 1000 ms; `rotateToLocation` targets the centring rotation over 700 ms |
| InteractiveGlobe.TickTurnsLongitudeOnly | src/globe/interactiveglobe.js:237-244 | a running timer's tick changes only the longitude, by half a degree |
| InteractiveGlobe.DragThrottled | src/globe/interactiveglobe.js:58-60 | a drag update within 20 ms of the last accepted one changes nothing |
| Overlays.AddPoint | src/globe/modifiableglobe.js:83-86 | `addPoint` appends one point, `VISIBLE_ON_HORIZON` by default |
| Overlays.RemovePoint | src/globe/modifiableglobe.js:88-94 | `removePoint` deletes the first point at the location and keeps the rest in order; it throws 'Point not found' exactly when none is there |
| Overlays.RemoveUndoesAdd | src/globe/modifiableglobe.js:83-94 | removing a point just added at a fresh location restores the list |
| Overlays.PointCoords | src/globe/modifiableglobe.js:102-118 | visible points project in place, hidden ones park off-screen or go to the horizon by type |
| Overlays.HorizonIsVisible | src/globe/modifiableglobe.js:121-124 | a point exactly a quarter turn away counts as visible |
| Overlays.IsHighlighted | src/modifiableglobe.js:183-185 | a key is highlighted in a colour exactly when some entry pairs them |
| Overlays.HighlightAdds | src/modifiableglobe.js:175-177 | appending a highlight adds exactly that key and colour |
| Overlays.On | src/globe/modifiableglobe.js:227-229 | `on` stores the callback under 'on' + event and leaves the other handlers alone |
| Overlays.OnReplaces | src/globe/modifiableglobe.js:227-229 | registering twice keeps only the second callback |
| Overlays.ClickCountry | src/globe/modifiableglobe.js:47-56 | a country click adds a point in point mode, and calls `onclick` exactly when it is set |
| Overlays.ClickReachesHandler | src/globe/modifiableglobe.js:47-56 | `on('click', cb)` is what a country click calls, with its location and country |
| Overlays.ClickPoint | src/globe/modifiableglobe.js:77-80 | in point mode a click removes the first point at the clicked location, keeping the rest in order, and throws 'Point not found' exactly when no point is there (never for a drawn point); outside point mode nothing changes |
| Overlays.ClickPointUndoesCountryClick | src/globe/modifiableglobe.js:77-80 | in point mode, clicking the point a country click just added at a fresh location restores the points list |
| ModifiableGlobe.ComputeArea | src/globe/modifiableglobe.js:256-258 | the area in square kilometres is below the threshold exactly when steradians times the Earth's radius squared is |
| ModifiableGlobe.Corners | src/globe/modifiableglobe.js:260-275 | a bounding box has four corners |
| ModifiableGlobe.ComputeCircleRadius | src/globe/modifiableglobe.js:260-275 | the radius is the greatest centroid-to-corner distance in degrees, so the circle covers the box |
| ModifiableGlobe.ScaleMonotone | src/globe/modifiableglobe.js:260-275 | converting radians to degrees is monotone |
| ModifiableGlobe.HighlightCountry | src/globe/modifiableglobe.js:192-208 | highlighting appends the `NE_ID` and colour, and a circle only for a country under 10000 square kilometres |
| ModifiableGlobe.IsHighlightedCountry | src/globe/modifiableglobe.js:215-217 | a feature is highlighted in a colour exactly when its `NE_ID` is listed with it |
| ModifiableGlobe.ClearHighlightedCountries | src/globe/modifiableglobe.js:210-213 | clearing leaves nothing highlighted and no circles |
| ModifiableGlobe.HighlightThenQuery | src/globe/modifiableglobe.js:192-217 | after highlighting, the query holds for exactly the old entries plus the new one, with one more circle exactly for a small country |
| ModifiableGlobe.ColoursIndependent | src/globe/modifiableglobe.js:215-217 | a country highlighted red only is not highlighted green |
| EarlyModifiableGlobe.HighlightCountry | src/modifiableglobe.js:175-177 | highlighting keeps every earlier entry in place and appends exactly `{ISO_A3, colour}` at the end, so that code now reads as highlighted in that colour |
| EarlyModifiableGlobe.IsHighlightedCountry | src/modifiableglobe.js:183-185 | a feature is highlighted in a colour exactly when its `ISO_A3` is listed with it |
| EarlyModifiableGlobe.ClearHighlightedCountries | src/modifiableglobe.js:179-181 | clearing leaves nothing highlighted |
| EarlyModifiableGlobe.HighlightByCode | src/modifiableglobe.js:175-185 | features sharing an `ISO_A3` are highlighted together |
| GameInfo.UpdateFpsCounter | src/game/geogame.js:76-84 | the counter reads 'idle' exactly when nothing was drawn; otherwise it reads exactly the draws per second over the 500 ms interval, twice the draw count, with nothing lost to `Math.round`; the draw count is then cleared |
| GameInfo.UpdateOverlay | src/game/geogame.js:167-174 | a truthy name or round replaces the shown one; any non-null score, zero included, replaces the shown one |
| GameInfo.UpdateOverlayWithPrompt | src/game/geogame.js:167-179 | the third generation also sets the prompt, to the end-of-game prompt exactly when game over |
| GameInfo.ZeroScoreShownEmptyNameNot | src/geogame.js:191-198 | a zero score reaches the bar, while an empty name or a zero round does not |
| Game.CorrectSumUpdate | src/game/geogame.js:133-136 | re-answering one question changes the running credit by the change in its credit |
| Game.CorrectSumFresh | src/game/geogame.js:86-90 | fresh questions have no credit |
| Game.InitialInv | src/game/geogame.js:57-60 | the constructor's state satisfies the invariant |
| Game.StartRound | src/game/geogame.js:108-126 | a round enters highlight mode, shows the question, its round and the score, and arms the timer and click handler |
| Game.Begin | src/game/geogame.js:86-93 | a game starts at question 0 with a zero score, over the drawn questions |
| Game.Start | src/game/geogame.js:86-93 | a start from the start or end screen throws exactly for a bad count or empty pool, leaving the state as it was; otherwise it asks the first question or freezes on a hung sampler |
| Game.Respond | src/game/geogame.js:128-140 | the answer is recorded; a correct one adds its total to the score and shows it; a throwing answer stalls the game |
| Game.OnClick | src/game/geogame.js:120-125 | a click answers only while the handler is registered, and unregisters it |
| Game.OnTimeout | src/game/geogame.js:114-118 | a timeout answers with nothing, only while the timer is armed |
| Game.EndGame | src/game/geogame.js:95-106 | the end shows '-' and the end-of-game prompt, leaves highlight mode and keeps the score |
| Game.OnNext | src/game/geogame.js:147-159 | next clears highlights and starts the next round, or ends the game after the last |
| Game.Step | src/game/geogame.js:19-165 | every event keeps the invariant: the score is the credit of the correctly answered questions |
| Game.Run | src/game/geogame.js:19-165 | any sequence of events keeps the invariant |
| Game.OneAnswerPerRound | src/game/geogame.js:114-125 | once a click or timeout has answered, neither a click nor the timer changes anything |
| Game.HighlightsAfterAnswer | src/game/geogame.js:131-139 | after an answer, green marks exactly the asked country, and red exactly a different answered country |
| Game.NextAfterLastEndsGame | src/game/geogame.js:153-158 | next after the last round ends the game with the score equal to the correct answers' credit |
| Game.ToMenu | src/game/geogame.js:44-54 | the end overlay's second button takes the end screen back to the start screen, keeping the finished game's questions, score, highlights and info bar, with nothing armed; elsewhere it does nothing |
| Game.MenuThenStartIsPlayAgain | src/game/geogame.js:19-27 | going back to the start screen and pressing start gives the same new game, or the same exception, as play again |
| Game.OverIsStable | src/game/geogame.js:40-54 | on the end screen only play again and the button back to the start screen change anything; clicks, timeouts and next do nothing |
| Game.CorrectSumBounded | src/game/questions.js:214 | the game's score lies in [0, 120 per question] |
| EarlyGame.ComputeResults | src/geogame.js:118-134 | correct exactly when the `ISO_A3` codes match, scoring 100 then and 0 otherwise, all of it in the adjacency field |
| EarlyGame.InitialInv | src/geogame.js:32-36 | the constructor's state satisfies the invariant |
| EarlyGame.StartRound | src/geogame.js:84-88 | a round enters highlight mode, shows round and score, and registers the click handler |
| EarlyGame.Begin | src/geogame.js:64-72 | a game starts at round 1 with a zero score over the drawn countries |
| EarlyGame.Start | src/geogame.js:64-72 | a start throws exactly for a bad count or no countries, leaving the state; otherwise it asks round 1 or freezes on a hung sampler |
| EarlyGame.OnClickAsWritten | src/geogame.js:89-95 | as written, an armed click unregisters the handler, leaves highlight mode and then throws, keeping the score, round, highlights and results; an unarmed click does nothing |
| EarlyGame.ClickNeverScoresAsWritten | src/geogame.js:89-100 | as written, the right answer in a round throws and leaves the score unchanged, where the intended handler adds 100; afterwards clicks and next do nothing, so the game is stuck |
| EarlyGame.OnClick | src/geogame.js:89-115 | the click handler as evidently intended: a click answers only while registered, adding the result's total to the score and recording the results |
| EarlyGame.EndGame | src/geogame.js:74-82 | the end shows 'GG' and keeps the score |
| EarlyGame.OnNext | src/geogame.js:152-168 | next clears highlights and advances both counters while rounds remain, and otherwise ends |
| EarlyGame.Step | src/geogame.js:64-168 | every event keeps the invariant: the score is a multiple of 100 within 100 per answered round |
| EarlyGame.OneClickPerRound | src/geogame.js:89-91 | a second click in a round changes nothing |
| EarlyGame.HighlightsAfterClick | src/geogame.js:95-103 | with the intended handler, after a click green marks the asked code and red exactly a different clicked code, never both |
| EarlyGame.SharedCodeCountsAsCorrect | src/geogame.js:126 | with the intended handler, a different country sharing the asked `ISO_A3` earns the full score |
| EarlyGame.FinalScore | src/geogame.js:160-167 | the final score is a multiple of 100 within [0, 100 per round] |
| DataPrep.EligibleIsGameEligibleButNorthernCyprus | data/optimizeNEData.js:12-27 | offline eligibility is the runtime pool's rule minus the sovereign 'N. Cyprus' |
| DataPrep.EligibleCountries | data/optimizeNEData.js:12-27 | the eligible list holds exactly the eligible features |
| DataPrep.ListEligible | data/optimizeNEData.js:29-30 | the names and ids lists are parallel: entry `i` of each describes the `i`-th eligible country |
| DataPrep.ListedAreEligible | data/optimizeNEData.js:29-30 | every listed name and id belongs to one eligible feature |
| DataPrep.ListEligibleConcat | data/optimizeNEData.js:12-30 | the lists of a concatenated dataset are the concatenated lists |
| DataPrep.FilterProperties | data/optimizeNEData.js:39-44 | stripping keeps `NAME` and `NE_ID` |
| DataPrep.Strip | data/optimizeNEData.js:36-37 | stripping keeps every feature, its order and its geometry |
| DataPrep.StripForgetsEligibility | data/optimizeNEData.js:36-37 | features differing only in dropped properties strip to the same thing |
| DataPrep.FeatureById | data/optimizeNEData.js:51-52 | every feature's `NE_ID` is a key of the map |
| DataPrep.FeatureByIdContents | data/optimizeNEData.js:51-52 | the map's keys are exactly the ids, and each holds the last feature with that id |
| DataPrep.LastIndex | data/optimizeNEData.js:52 | the last position with a given key has no later match |
| DataPrep.CountriesMap | data/adjacency.js:7-8 | every country name is a key, and the last country's id wins |
| DataPrep.GetId | data/adjacency.js:14-16 | `getId` yields the id exactly for a known name, and `undefined` otherwise |
| DataPrep.DuplicateNameLastWins | data/adjacency.js:7-8 | a name shared by two countries resolves to the later one's id |
| DataPrep.ConvertEntry | data/adjacency.js:19-20 | an entry converts its name and each neighbour's name to ids pointwise |
| DataPrep.ToIdAdjacency | data/adjacency.js:18-21 | every entry's converted name is a key |
| DataPrep.ToIdAdjacencyContents | data/adjacency.js:18-21 | the last entry under a key gives its list, converted pointwise |
| DataPrep.ToIdAdjacencyKeys | data/adjacency.js:18-21 | the map has no key but the converted names |
| DataPrep.SharedIdCollides | data/adjacency.js:18-21 | two names with one id collide, and the later list wins |
| DataPrep.UnknownNeighbourKept | data/adjacency.js:20 | an unknown neighbour name stays as `undefined` |

## Left out

- Rendering is left out: d3 drawing, SVG paths, CSS classes, graticules, rivers and lakes, `draw()` counters, and the tween interpolation inside transitions. A transition is modelled by its final targets.
- `getWaypoint` and `getHorizonPoint` are left out. The spherical trigonometry is a parameter of `Screen`.
- The linear and exponential proximity curves are left out. `computeProximityScoreLinear` is unused. The exponential curve needs `Math.exp` and `Math.log`, so it is a parameter of `Scorer`. Only the quadratic curve is written out.
- The exp/log wheel curve of the third-generation globe is left out. It is the `ScaleCurve` parameter.
- `InteractiveGlobe.ComputeScale`: does not state monotonicity in the wheel delta, because the curve is a parameter.
- `InteractiveGlobe.StartAutoRotateStep`: models a repeated `startAutoRotate` as replacing the timer reference. It does not model the earlier interval that keeps running and can no longer be stopped.
- `EarlyInteractiveGlobe.Step`: its `StartAutoRotate` branch, like `InteractiveGlobe.StartAutoRotateStep`, replaces the timer reference on a repeated `startAutoRotate` (src/interactiveglobe.js:195-205). The earlier interval keeps running and can no longer be stopped; the model drops it.
- Wall-clock time (`Date.now()`), `setTimeout` delays, the 100 ms final-draw timeout of the wheel and the 30 ms tick period are left out. Each firing is an event, in the order the events are given.
- The result dialog, start, end and about overlays, the settings, the info bar widgets and the `src/ui` files are left out. Only the fields `updateOverlay` writes are kept.
- The FPS `setInterval` registration is left out; only one reading is modelled.
- File reading and writing and JSON parsing in `data/` are left out. JSON object keys are strings, so an `undefined` key becomes "undefined". The model keeps keys as `Option<int>`, which distinguishes them the same way.
- Floating-point rounding is left out: numbers are reals and `Math.PI` is the exact rational 3.141592653589793.
- `Game.Step`: states the invariant only. The per-event behaviour is stated by the handler functions it dispatches to.
- `EarlyGame.Step`: states the invariant only. The per-event behaviour is stated by the handler functions it dispatches to.
- `EarlyInteractiveGlobe.Step`: states what every handler keeps and which can throw. The per-event behaviour is stated by the handler functions.
- `InteractiveGlobe.DoneStep`: states only what a completion keeps. Its effect is stated by `InteractiveGlobe.FinishTransition`. It inherits the gap recorded for `InteractiveGlobe.FinishTransition`.
- `InteractiveGlobe.FinishTransition`: assumes that the transition's tweens ran to their end. A later `transitionGlobe` started before this completion starts new transitions on the same paths, and d3 interrupts the earlier tweens part-way. In the source the projection then stays wherever the interrupted tween left it. Example: `zoomOut` (1000 ms), then `rotateToLocation` 100 ms later. The zoom's completion at 1050 ms sets the scale to the fitted minimum in the model, but in the source the scale falls short of it. How far a tween got depends on wall-clock time, which the model does not have.
- `EarlyInteractiveGlobe.DoneStep`: has the same gap. A second `rotateToLocation` started within 1000 ms interrupts the first rotation. The first completion then sets the first target in the model, while the source is still turning towards the second. The second completion sets the second target in both.
- `Game.ToMenu`: the end overlay's second button also disables interaction, moves the camera to the start position, hides the info bar and the end overlay, zooms out and restarts auto-rotation (src/game/geogame.js:44-54). Overlay visibility and globe calls are not part of the controller's state, so the model keeps only the change from the end screen to the start screen.
- `EarlyInteractiveGlobe.NewGlobe`: gives the second-generation globe an initial scale (the fitted scale) and an svg, which its base class `src/globe.js` never sets. In the source `scaleExtent` would be NaN and the `this.svg` calls would throw. Its `require('./geodata')` destructuring also yields `undefined`, because `src/geodata.js` exports the class itself. Nothing in the repository constructs this globe, so the model describes it as its design intends.
- `EarlyGame.OnClick`: is the corrected handler, see Findings. The as-written handler is `EarlyGame.OnClickAsWritten`.
- The game's moves to the start, game and end camera positions are left out (`moveToStartPosition` and the like).
- `QuestionResult` positioning, and the draw handler that repositions it, are left out.

## Findings

| source | as written | input that shows it | evidently intended | confidence | as-written member | corrected member |
|---|---|---|---|---|---|---|
| src/geogame.js:95 | passes the asked country's `ISO_A3` string to the globe's `highlightCountry`, which reads `.properties.NE_ID` of its argument (src/globe/modifiableglobe.js:192-193), so the handler throws a TypeError | any click in round 1: the handler throws after unregistering itself, the score stays 0 and the game never leaves round 1 | highlight the asked country, add the round's 100 points for a right answer and move on to the result | not executed | EarlyGame.OnClickAsWritten | EarlyGame.OnClick |
| src/game/questions.js:250-256 | `return false` inside the `forEach` callback returns from the callback only, so `isAnswered()` always returns true | a `QuestionSet` holding one new, unanswered question: `isAnswered()` is true | true exactly when every question is answered | not executed | Questions.IsAnswered | Questions.AllAnswered |
