# littlediggame core, modelled in Dafny

In littlediggame, workers ("little guys") walk around a planet of cells (pixels) and dig it away. Dug cells pay aspis, the currency. Aspis buys more workers, shields and upgrades. This project models:

- the cells: `Cells`, `Tombstones`, `Serpents`;
- the worker's frame-by-frame engine: `Agents`, with `Orientations` and `Perimeter` holding the pure parts of its movement;
- the economy and game-state guards of the game object: `Games`;
- the sky's band layout and colour fade: `Skies`;
- the playtesting bot's decisions and CSV report: `Bots`, `Csv`.

Objects whose fields the source updates in place are Dafny classes:

- `Cells.Pixel`;
- `Agents.LittleGuy`;
- `Games.Game`;
- `Skies.Sky`;
- `Bots.Bot`.

Their methods are proved against specification functions and predicates.

The planet (`Bodies.PixelBody`) and the upgrade tree (`Upgrading.Upgrades`) are collaborators whose code is not part of this model. They appear as small stand-in classes. Each stand-in operation states a contract that the rest of the model assumes. Those contracts are not derived from the collaborators' own code.

These inputs become parameters:

- the random draws (`Math.random()`): the rolls;
- the rotation helpers;
- dirt's initial health and colours;
- number formatting.

Listener callbacks become a log of `Notice` values that the agent appends to.

## Model

| member | source | states |
|---|---|---|
| Cells.Damaged | src/diggables/pixel.js:125-132 | health after a hit is never negative; it is the raw difference, or 0 when that would be negative; it never exceeds the old health |
| Cells.ClampByte | src/diggables/pixel.js:106-123 | a value stored into the RGBA buffer lies in 0..255 and is unchanged when already in range |
| Cells.Pixel.constructor | src/diggables/pixel.js:37-57 | a new cell has initial health = base health × modifier, full health, no override, no surface flag, no darkness and no blood |
| Cells.Pixel.Tombstone | src/diggables/tombstone.js:14-21 | a tombstone cell has health 125 × modifier and its colour |
| Cells.Pixel.Serpent | src/diggables/serpent.js:17-24 | a serpent cell starts at full health: initial health and health are both 350; it has both a colour and a surface colour |
| Cells.Pixel.ActLikeDirt | src/diggables/pixel.js:81-83 | the base class throws; a subclass answers its fixed choice |
| Cells.Pixel.Damage | src/diggables/pixel.js:125-132 | the bare base class throws (its render alpha asks `actLikeDirt`) and keeps its health; any other cell's health becomes `Damaged(old health, amount)` |
| Cells.Pixel.SetColorOverride | src/diggables/pixel.js:134-136 | the override is set, and `HasColorOverride` (pixel.js:142-144) holds |
| Cells.Pixel.UnsetColorOverride | src/diggables/pixel.js:138-140 | the override is cleared, and `HasColorOverride` fails |
| Cells.Pixel.GetHealth | src/diggables/pixel.js:147-154 | throws exactly for the base class; dirt-like cells answer their health less the offset `initialHealth - dirtInitialHealth × modifier`, floored at 0; others answer raw health; never negative |
| Cells.Pixel.SetSurface | src/diggables/pixel.js:156-158 | the surface flag and the `surface` getter (`Surface`, pixel.js:199-201) both read the new value |
| Cells.Pixel.SetDarkness | src/diggables/pixel.js:174-176 | darkness is clamped into [0, 1]: the value itself when inside, 0 below, 1 above |
| Cells.Pixel.Bloody | src/diggables/pixel.js:166-172 | the cell is bloodied (`IsBloodied`, pixel.js:178-180, holds); the first blood colour sticks |
| Cells.Pixel.GetRenderColor | src/diggables/pixel.js:85-93 | blood wins; then the base class throws; a dirt-like cell shows dirt's surface or body colour; others show their surface or own colour |
| Cells.Pixel.Render | src/diggables/pixel.js:81-123 | outside the image nothing changes and it returns; inside, with no colour to paint it throws with nothing written; otherwise exactly the cell's RGBA entries change: the override or render colour darkened (no darkness in debug mode), rounded and clamped, then the rounded alpha, except that the bare base class throws before writing the alpha |
| Cells.RowMajorIndexInBounds | src/diggables/pixel.js:114-118 | the cell's four bytes lie inside a buffer of width × height × 4 |
| Tombstones.TombstoneHealthIsRaw | src/diggables/tombstone.js:23-25 | a tombstone never acts like dirt, so its health is its raw health |
| Tombstones.TombstoneColorIgnoresSurface | src/diggables/tombstone.js:16-25 | an unbloodied tombstone always paints its own colour, even on the surface |
| Serpents.SerpentHealthIsRaw | src/diggables/serpent.js:26-28 | a serpent cell never acts like dirt, so its health is its raw health |
| Serpents.SerpentRenderColorPresent | src/diggables/serpent.js:19-28 | a serpent cell always has a colour to paint and never throws |
| Orientations.SliceIndex | src/little_guy.js:280-312 | the quarter-plane sector of a vector, stated exactly by inequalities; the origin falls in sector 1, as `atan2(-0, -0)` = -pi does after `toLocalSpace` negates the offset |
| Orientations.AngleToOrientation | src/little_guy.js:280-312 | each sector maps to its cardinal direction (down, left, up, right); anything else maps to up |
| Orientations.GuessFacesOutward | src/little_guy.js:593-598 | the guessed orientation points away from the centre, as well as any cardinal direction does |
| Orientations.FirstOpen | src/little_guy.js:314-359 | the first direction in order whose neighbour is empty, or none when every neighbour is occupied |
| Orientations.RepairKeepsCardinal | src/little_guy.js:314-359 | repairing a cardinal orientation leaves it cardinal |
| Orientations.RepairFacesOpenSide | src/little_guy.js:314-359 | an orientation already facing an empty cell is kept; otherwise the first empty side in the fixed order is taken; with every side occupied the orientation is unchanged |
| Perimeter.LastN | src/little_guy.js:192-198 | the last n elements of a sequence |
| Perimeter.HistoryIsLastFour | src/little_guy.js:192-198 | pushing positions one by one keeps exactly the last four |
| Perimeter.SurfacePositions | src/little_guy.js:714-719 | exactly the positions of the surrounding cells flagged as surface |
| Perimeter.OpenSides | src/little_guy.js:721-739 | exactly the sides of a cell whose neighbour is empty |
| Perimeter.Steps | src/little_guy.js:741-773 | exactly the neighbours through open sides that are neither the current position nor in the history |
| Perimeter.CandidatesSound | src/little_guy.js:741-773 | every collected candidate is an open-side neighbour of a surface cell, away from here and the history |
| Perimeter.CandidatesComplete | src/little_guy.js:741-773 | every such neighbour is collected |
| Perimeter.SurfaceOf | src/little_guy.js:714-719 | the loop collects `SurfacePositions` |
| Perimeter.EdgesOf | src/little_guy.js:727-737 | the loop collects `OpenSides` |
| Perimeter.WasPreviousPosition | src/little_guy.js:751-760 | answers whether the position is in the history |
| Perimeter.StepsOf | src/little_guy.js:743-773 | the loop collects `Steps` |
| Perimeter.EdgeMap | src/little_guy.js:721-739 | one list of open sides per surface cell, in order |
| Perimeter.CandidatesAround | src/little_guy.js:713-773 | the candidates from the surrounding cells are `CandidatesFrom` their surface positions, and each faces one of the four sides |
| Perimeter.CollectCandidates | src/little_guy.js:741-773 | the nested loops collect `CandidatesFrom` |
| Perimeter.StepsAround | src/little_guy.js:721-773 | the open sides of the surface cells around, then the steps from them, are `CandidatesFrom` |
| Perimeter.StepsOfAll | src/little_guy.js:741-773 | the outer loop over the surface cells collects `CandidatesFrom` |
| Perimeter.CandidatesSnoc | src/little_guy.js:741-773 | candidates of one more surface cell are appended at the end |
| Perimeter.SelectCandidate | src/little_guy.js:783-917 | the chosen index is the nearest candidate (the first counts as no farther than the start bound); among equally near ones it lies furthest in the walking direction in the rotated frame, then earliest |
| Agents.InactiveCountAppend | src/little_guy.js:361-364 | counting `Inactive` notices is additive over concatenation |
| Agents.GrewByEventsTransitive | src/little_guy.js:163-179 | growth of the log by non-`Inactive` notices composes |
| Agents.InactiveCountUnchanged | src/little_guy.js:366-444 | a log grown only by digs and deaths keeps its `Inactive` count |
| Agents.SurvivorsAreUnremoved | src/little_guy.js:556-574 | removing the blast list leaves exactly the cells outside the blast, eggs (without egg handling) and magic cells |
| Agents.WalkDirection | src/little_guy.js:659-666 | the direction is ±1; the previous direction is kept when the roll allows it (nine times in ten) |
| Agents.LittleGuy.constructor | src/little_guy.js:48-98 | a new agent is alive and active, faces the sector guess (left, (-1,0), when spawned at the body centre), holds the upgrade's dig count, and takes saintly/explosive from the rolls |
| Agents.LittleGuy.ToJson | src/little_guy.js:100-123 | the saved orientation of a well-formed agent is a side, as loading needs; `FromJson` gives back the saved record |
| Agents.LittleGuy.FromJson | src/little_guy.js:100-152 | restoring saved state and saving it again gives back the same state |
| Agents.LittleGuy.AddPreviousPosition | src/little_guy.js:192-198 | the history gets the new position last, and keeps at most four |
| Agents.LittleGuy.SetInactive | src/little_guy.js:361-364 | the agent is inactive and one `Inactive` notice is logged |
| Agents.LittleGuy.UpdateOrientation | src/little_guy.js:314-359 | with a standing cell, the orientation becomes the repaired one that faces an empty side |
| Agents.LittleGuy.FindPixelToStandOn | src/little_guy.js:495-513 | the surface cell at its feet, else just below, else the nearest surface cell; none exactly when no surface is left |
| Agents.LittleGuy.BlastList | src/little_guy.js:557-570 | the cells around that the blast removes, without duplicates |
| Agents.LittleGuy.Die | src/little_guy.js:550-584 | dead; defused if killed by an egg or a serpent; an explosive agent removes the blast and reports it before its death notice |
| Agents.LittleGuy.Explode | src/little_guy.js:556-574 | exactly the cells in the blast leave the body (eggs without egg handling, and magic cells, stay), and one notice reports them all |
| Agents.LittleGuy.GoToNearestSurfacePixel | src/little_guy.js:586-612 | dies with nothing to stand on; otherwise stands on top of the chosen cell, facing the repaired sector guess, with history cleared |
| Agents.LittleGuy.StandOn | src/little_guy.js:592-611 | stands on top of the given cell, facing the sector guess repaired toward an empty side, with history cleared |
| Agents.LittleGuy.StartDigging | src/little_guy.js:515-526 | when not already digging, targets the standing choice; digs exactly when there is one |
| Agents.LittleGuy.RemoveDugPixel | src/little_guy.js:533-535 | the dug cell leaves the body and is reported |
| Agents.LittleGuy.SpendDig | src/little_guy.js:544-547 | one dig fewer; dead when none remain |
| Agents.LittleGuy.FinishDigging | src/little_guy.js:528-548 | the dug cell is removed and reported first; one dig is spent; a survivor stands on a live cell with history cleared |
| Agents.LittleGuy.SettleAndSpend | src/little_guy.js:542-548 | after the re-placing and the spent dig, a survivor stands on top of a live cell with history cleared; none left means death |
| Agents.LittleGuy.Retarget | src/little_guy.js:619-628 | the new target is the standing cell: with something to stand on, the live cell `StandingChoice` picked before the call; if the agent died, the cell it stood on |
| Agents.LittleGuy.Work | src/little_guy.js:630-638 | damage once per 60 frames; the dig finishes exactly when health is gone |
| Agents.LittleGuy.Dig | src/little_guy.js:614-646 | a live target is worked on, as in `Work`; a lost one is replaced by the cell `StandingChoice` picks, which is then worked on the same way (hit once per 60 frames, finished exactly when its health is gone); with nothing to stand on the agent dies; no body cell but the final target changes |
| Agents.LittleGuy.StepTo | src/little_guy.js:919-937 | stands on the candidate, pushes it on the history, re-finds its cell, and faces the repaired side |
| Agents.LittleGuy.CandidateSteps | src/little_guy.js:703-773 | the collected candidates are `StepsAt`, and all have cardinal orientations |
| Agents.LittleGuy.Advance | src/little_guy.js:703-937 | with candidates, takes the selected one and nothing else changes; without, it relocates (or dies when nothing is left) |
| Agents.LittleGuy.TakeStep | src/little_guy.js:847-937 | steps to the candidate the selection picks, touching neither life, notices nor cells |
| Agents.LittleGuy.Resettle | src/little_guy.js:775-780 | with no candidates the agent re-places itself on a live cell with history cleared, or dies with nothing to stand on |
| Agents.LittleGuy.Move | src/little_guy.js:670-937 | forgets history on a change of direction, then advances as `Advanced` states |
| Agents.LittleGuy.Wander | src/little_guy.js:648-667 | moves only when not digging, rested 10 frames and the roll is within 2%; the move goes in the `WalkDirection` and takes the step `Advanced` states, with the history forgotten on a change of direction |
| Agents.LittleGuy.Perish | src/little_guy.js:550-584 | the agent is dead afterwards |
| Agents.LittleGuy.Bury | src/little_guy.js:446-461 | a tombstone fills an empty spot (and the surface is recomputed); an occupied spot is left alone; the agent becomes inactive; existing cells change at most their surface flag |
| Agents.LittleGuy.Ascend | src/little_guy.js:463-491 | a dead agent's progress grows by one and it turns inactive at 100; a live one is untouched |
| Agents.LittleGuy.AfterDeath | src/little_guy.js:370-381 | egg deaths lie still for 40 frames; with the afterlife upgrade the agent ascends; otherwise it is buried: a tombstone fills an empty `TombstoneSpot` (the only cell added, and the surface flags are recomputed), an occupied spot leaves the cells as they are; existing cells change at most their surface flag |
| Agents.LittleGuy.Reacquire | src/little_guy.js:384-390 | a lost or exhausted standing cell is re-found, and becomes the dig target while digging |
| Agents.LittleGuy.FaceHazards | src/little_guy.js:395-418 | an unhandled egg kills; an attacking serpent kills the unshielded, and sets the block flag for the shielded; else the block clears; the agent dies exactly when the cell is `Deadly` |
| Agents.LittleGuy.Confront | src/little_guy.js:383-418 | the frame is counted; the agent keeps a live standing cell with health left, else re-finds one as `StandingChoice` picks (`StoodOn`); it dies exactly when there is none or that cell is `Deadly`, and that cell's hazards are marked as `HazardsHandled` states |
| Agents.LittleGuy.Act | src/little_guy.js:420-443 | an agent not forced to dig, with a roll that misses, does not start digging; no body cell but the final dig target changes |
| Agents.LittleGuy.DigOrWander | src/little_guy.js:438-443 | a digging agent digs: a live target is hit once per 60 frames and stays the target, digging goes on exactly while its health lasts, and the walk direction is kept; any other agent wanders: no dig state changes, it stays put unless `WillMove`, and a move takes the step `Advanced` states; no body cell but the final dig target changes |
| Agents.LittleGuy.Live | src/little_guy.js:383-443 | the cell the frame judges the agent by is the kept or re-found one (`StoodOn`); its hazards are marked as `HazardsHandled` states; it kills the agent when `Deadly`, and so does having no cell to stand on; the frame counter grows by one unless a move resets it; no body cell but the final dig target changes |
| Agents.LittleGuy.Update | src/little_guy.js:366-444 | inactive: nothing changes; dead: the death frame, with the egg fade, the ascent, or the burial's tombstone in an empty `TombstoneSpot` (no other cell added; an occupied spot or the other branches leave the cells in place); alive: stays active, and the kept or re-found cell's hazards and death act as in `Live`; exactly one `Inactive` notice when it turns inactive; the body's cells keep their state, except the final dig target of a live agent and the surface flags a burial recomputes |
| Agents.LittleGuy.Init | src/little_guy.js:155-160 | the spawn position is remembered, then the agent stands on a live cell, or dies with nothing to stand on |
| Agents.LittleGuy.SetShielded | src/little_guy.js:257-263 | the flag holds the new value |
| Games.AfterEndGame | src/game.js:857-862 | ending a game that is neither ending nor over makes it end; otherwise the state is kept; afterwards the game is ending or over |
| Games.AfterSetPaused | src/game.js:1187-1194 | an uninitialised or finished game is unaffected; otherwise the paused flag is set as asked |
| Games.SetPausedIdempotent | src/game.js:1187-1194 | pausing (or resuming) twice equals doing it once |
| Games.MaculateCount | src/game.js:1024-1027 | never more than the workers |
| Games.AliveCount | src/game.js:1033-1034 | never more than the workers |
| Games.PaidForCount | src/game.js:1024-1027 | 0 exactly when the free workers cover the next one; otherwise the excess |
| Games.CountedType | src/game.js:550-557 | locked gold and locked diamonds pay as dirt; every other type pays as itself |
| Games.DigsValueAppend | src/game.js:545-569 | the value of dug cells is additive over batches |
| Games.DigsValueNonNegative | src/game.js:545-571 | with non-negative prices, digging never loses aspis |
| Games.TypesOf | src/game.js:549-550 | the types of the cells, in order |
| Games.SurfaceValue | src/game.js:1078-1087 | an unhandled egg counts 0; every other cell counts its dig value |
| Games.SurfaceSumBounds | src/game.js:1072-1088 | the surface total lies between n × lowest and n × highest value |
| Games.ExpectedValueBetween | src/game.js:1060-1092 | the expected value lies between the lowest and highest cell value times the dig count |
| Games.AverageBetween | src/game.js:1089-1090 | a bounded sum's mean, times the digs, stays within the bounds times the digs |
| Games.Game.constructor | src/game.js:52-148 | no aspis, no costs, no shield, spawning allowed, uninitialised, no workers |
| Games.Game.ActivePixelBody | src/game.js:955-957 | the head of the body queue, or none when it is empty |
| Games.Game.HandleDigsComplete | src/game.js:535-575 | no cells: no change; otherwise aspis grows by `DigsValue`, dirt becomes known, and a redraw is flagged exactly when value was earned |
| Games.Game.ShieldCostFor | src/game.js:1033-1034 | once shields are unlocked, 302 per living worker, so between 0 and 302 per worker; before that the price is kept |
| Games.Game.UpdateSpawnCost | src/game.js:1023-1042 | the spawn cost is the curve at the paid-for count; once shields are unlocked, the shield cost is 302 per living worker |
| Games.Game.ActivateShield | src/game.js:646-666 | refused when already active, unaffordable or with no workers; otherwise the cost is paid and the shield is on |
| Games.Game.DeactivateShield | src/game.js:668-676 | the shield is off; no-op when it was already off |
| Games.Game.OnUpgradePurchased | src/game.js:678-707 | refused when unaffordable; otherwise the cost is paid, exactly the tree entries with its id are marked bought (the tree keeps its length and its other entries), and the spawn and shield costs are re-priced |
| Games.Game.Spawn | src/game.js:975-1021 | refused past the guards; a paid spawn pays; a lucky roll adds an immaculate worker; the spawn and shield costs are re-priced except on the extra path with no spot, which keeps both |
| Games.Game.GoToNextPixelBody | src/game.js:771-836 | the head body and every worker are dropped; true exactly when a body remains, whose sky colours are set |
| Games.Game.CalculateExpectedValue | src/game.js:1060-1092 | 0 with no body; otherwise `ExpectedValue` of the active body's surface |
| Games.Game.EndGame | src/game.js:857-862 | the state follows `AfterEndGame`; on the first end, spawning stops |
| Games.Game.EndGameForRealForReal | src/game.js:886-889 | the game is over, and won exactly when `won` |
| Games.Game.SetPaused | src/game.js:1187-1194 | the state follows `AfterSetPaused` |
| Skies.CeilDiv | src/sky.js:45-51 | the least multiple count reaching `a`: `b·r ≥ a > b·(r−1)` |
| Skies.BandsCover | src/sky.js:45-51 | at least two bands, at most 10 px each, reaching the bottom together |
| Skies.BandsStayInside | src/sky.js:102-103 | no drawn band is taller than the band height or passes the bottom |
| Skies.BandsTile | src/sky.js:81-105 | every band is drawn with positive height, and every row lies in exactly the band row / height |
| Skies.RowInBand | src/sky.js:81-105 | with the bands covering the sky, row `row` lies inside the drawn part of band `row / h` |
| Skies.LastBandStartsInside | src/sky.js:45-51 | the last band starts above the bottom |
| Skies.IdleStaysIdle | src/sky.js:68-79 | an idle fade counter stays idle |
| Skies.TransitionRuns | src/sky.js:54-79 | a fade over d frames counts 0..d+1, then ends at −1 and stays idle |
| Skies.StepsLast | src/sky.js:68-79 | n+1 updates are n updates followed by one |
| Skies.Sky.constructor | src/sky.js:13-22 | no colours, no bands, idle counter, no colour index |
| Skies.Sky.ToJson | src/sky.js:24-28 | saves only the colour index |
| Skies.Sky.FromJson | src/sky.js:30-34 | restoring then saving gives back the same record |
| Skies.Sky.OnResize | src/sky.js:45-51 | size is 2w × (h+2); the band count and height cover the sky, and each band is drawn |
| Skies.Sky.SetColors | src/sky.js:54-66 | the same colours: nothing changes; otherwise the fade restarts over `duration` from the old colours (or the new ones on a fresh sky) |
| Skies.Sky.Update | src/sky.js:68-79 | the counter takes one `Step`: idle stays idle, past the duration it ends, else it advances |
| Csv.Escape | testing/bot.js:57-72 | escaping never shortens, keeps every character that is not a quote, and doubles the number of quotes |
| Csv.Quote | testing/bot.js:63-68 | a written field starts and ends with a quote, and holds twice the field's quotes plus two; `ReadFieldQuote` reads it back |
| Csv.RowText | testing/bot.js:63-70 | a row's text is empty exactly for an empty row, and otherwise starts and ends with a quote; `ReadRowText` reads it back |
| Csv.CsvText | testing/bot.js:63-71 | the text starts with a quote when the first row has a field and ends with one when the last does; `CsvRoundTrip` reads it back |
| Csv.ReadQuotedEscape | testing/bot.js:57-72 | an escaped field followed by its closing quote reads back as the field |
| Csv.ReadFieldQuote | testing/bot.js:57-72 | a quoted field reads back as itself |
| Csv.ReadRowText | testing/bot.js:57-72 | a written row reads back as the row |
| Csv.ReadRowStep | testing/bot.js:57-72 | a field, a comma and a readable row read as one more field |
| Csv.CsvRoundTrip | testing/bot.js:57-72 | the CSV text of a non-empty table of non-empty rows reads back as the table |
| Bots.CheapestIsUnique | testing/bot.js:210-223 | at most one entry is the cheapest; ties go to the first |
| Bots.ProgressToNextUpgrade | testing/bot.js:250-253 | 100 with nothing to buy; never above 100; 100 exactly when affordable; a free upgrade gives 100, NaN or −Infinity |
| Bots.RatioAtLeastHundred | testing/bot.js:251-253 | the ratio reaches 100% exactly when the aspis covers the cost |
| Bots.PurchasedCount | testing/bot.js:259-264 | never more than the tree's size |
| Bots.NewEvent | testing/bot.js:227-277 | the count of bought upgrades, the cheapest cost, the progress, and locked gold/diamond prices recorded as 0 |
| Bots.Headers | testing/bot.js:279-304 | 22 pairwise distinct column names |
| Bots.AsRow | testing/bot.js:306-331 | one field per header |
| Bots.RowMatchesHeaders | testing/bot.js:279-331 | column i of every row holds the field that header i names |
| Bots.RowStrings | testing/bot.js:57-72 | each field's text, in order |
| Bots.Table | testing/bot.js:57-72 | the header row, then one row per event, in order |
| Bots.Bot.constructor | testing/bot.js:14-26 | no events, not running, no peak, no upgrade bought |
| Bots.Bot.GenerateCsv | testing/bot.js:57-72 | reading the CSV back gives the header row followed by each event's row, in recording order |
| Bots.Bot.FindCheapestUpgrade | testing/bot.js:210-223 | none exactly when nothing is eligible; otherwise the first eligible upgrade of least cost |
| Bots.Bot.MaybeBuyUpgrade | testing/bot.js:166-186 | clicks exactly when the button exists and the cheapest upgrade costs less than the aspis held; records its id and the time |
| Bots.Bot.ShouldSpawn | testing/bot.js:149-164 | a spawn decided on is below the cap and affordable or free; `ShouldSpawnBounds` gives its branches exactly |
| Bots.Bot.ShouldSpawnIsAccepted | testing/bot.js:149-164 | a spawn the bot decides on passes the game's own paid-spawn guards |
| Bots.Bot.ShouldSpawnBounds | testing/bot.js:149-164 | never beyond the cap or unaffordable; free spawns always; paid ones exactly when 0.75 × EV beats the cost |

## Left out

- Rendering, audio, the DOM, particles, zoom, the legend, the story, the progress gates and the stats are left out. They do not change what the model tracks.
- The planet (src/pixel_body.js) is not part of this model. `Bodies.PixelBody` is a stand-in, and its contracts are assumptions: getPixel, hasPixel, removePixel(s), addPixel, updateSurface, getClosestSurfacePixel, getSurroundingPixels and getPixelsAround.
- The planet's surface invariant (a cell is on the surface exactly when it has an empty side) is assumed of `updateSurface`. It is not proved from the planet's code.
- The upgrade tree (src/upgrades.js) is not part of this model. `Upgrading.Upgrades` carries its fields. `Purchase` marks the tree entries with that id as bought. Any other purchase effects are not modelled.
- The worker collection (src/little_guys.js) is not part of this model. `Games.Worker` records stand in for workers. `maculateCount` and `aliveCount` are taken to count the non-immaculate and the living records.
- The game states (src/game_state.js) are not part of this model. "Over" is read as won or lost, and "paused" as the PAUSED state.
- `Math.random()` draws are parameters (the rolls). The model compares them exactly as the code does.
- `Math.atan2` is replaced by the exact sector test `SliceIndex`. Floating-point rounding on the sector borders is not modelled. Signed zeros are modelled only where they change a sector, at the origin.
- Euclidean distances are replaced by squared integer distances. The two order candidates the same way.
- The vector rotations (src/vector.js) are not part of this model. They are parameters of `Move`.
- JavaScript numbers are reals or integers, without rounding, except where a NaN or an infinity can arise (`Bots.JsNumber`).
- Cells.Pixel.Render: the render alpha (`getRenderAlpha`, a health percentage rounded up to a visual step) is a parameter; only its throw for the bare base class is modelled. The `needsUpdate` flag it clears is not modelled.
- Agents.WalkDirection: the threshold `1 - 0.9` is 0.09999999999999998 as a double, but the model uses 0.1. A roll of exactly that value is the only input where they differ.
- Agents.LittleGuy.Ascend: the rising position (atan2, cos, sin, rounding) is not modelled. The `this.distToCenter < 0.2` test reads a field that is never assigned, so it is always false, and the model omits it.
- Agents.LittleGuy.Die: the audio choice on death is not modelled.
- Agents.LittleGuy.Act: the contract states only that an agent which is not forced to dig, and whose roll misses, does not start digging. The digging and wandering that follow are stated by `Dig` and `Wander`.
- Agents.LittleGuy.DigOrWander: for a lost dig target, the replacement and its damage are stated by `Dig`. They are not repeated here.
- Agents.LittleGuy.Live: the contract states the frame counter, the re-found cell, its hazards and the deaths they cause. The rest of the frame is stated by `Act`.
- Agents.LittleGuy.Perish: states only that the agent is dead and which parts of the log and the body may change. `Die` states the full effect.
- Agents.LittleGuy.Update: for a live agent, the contract states what `Live` states and the `Inactive` count. The position and digging effects are stated by the members it calls.
- The saved `digProcessPct` field is not modelled in `LittleGuyJson`. The source saves and restores it but never sets or reads it otherwise, so it carries no behaviour.
- The head and body colours, the dig-pose and ascension-alpha helpers, and the `position` field in local space are rendering details. They are not modelled.
- Skies.Sky.SetColors: top and bottom colours are compared by value. The source compares the colour objects by reference, so equal colours held in different objects restart the fade there.
- The sky's `init`, `destroy` and the render-data pixel writes are not modelled. Only the band layout they use is (`BandsTile`).
- Games.Game.HandleDigsComplete: the diamond, magic and blood effects that follow the payout are not modelled (particles, story and the blood-diamond upgrade).
- Games.Game.CalculateExpectedValue: missing entries in the surface list are skipped by the source. The model's surface list has none.
- Games.Game.GoToNextPixelBody: the story beats, particles, UI and zoom updates, and the final-level handling are not modelled.
- Games.Game.Spawn: the worker's placement on the planet and the random surface spot for the extra worker are parameters.
- Games.Game.ActivateShield: the shield's effect on each worker (`onShieldActivated`) and the cooldown button are not modelled. The same holds for `DeactivateShield`.
- The game's save and restore (`toJSON`/`fromJSON`), `init`, `onResize`, the frame loop (`tick`, `runUpdate`), `handleDeath`, `handleInactive`, `maybeAutoSpawn`, `updateHealth` and `finalLevelLost` are not modelled. They drive the operations above but add no economy rule.
- The end-game screen and the ENDING state's later transitions are not modelled.
- The per-type prices are a total function. A missing entry in `aspisPer` (which JavaScript would turn into NaN) is not modelled.
- Games.Game.constructor: `forall t :: aspisPer(t) >= 0` is required of the upgrade tree, which is not part of this model, and `Valid` relies on it to keep aspis non-negative.
- Games.Game.constructor: the defaults the source builds when no upgrades or no bodies are given (a fresh `Upgrades` and five stock planets) are not modelled. The caller supplies both.
- Number formatting (`String(x)` and `toFixed(2)`) is a parameter (`Bots.Formats`). Only NaN and the infinities are spelled out.
- Bots.Bot.MaybeBuyUpgrade: the button's click handler is not modelled. The method returns the upgrade whose button it clicks.
- The bot's `start`, `stop`, `tick`, `recordState`, `maybeSpawnLittleGuy`, and the file name and download of the CSV are not modelled. They are timers and browser I/O.
