# Lottery draw engine

A Dafny model of the draw engine of the lottery web app (a Next.js/React page).

Without its markup, the app is a small sequential state machine over three lists:

- the participants (`people`);
- the configured prizes (`prizes`, each a name, an image URL and a unit count);
- the ledger of winners (`winners`, each a participant name and a prize name).

The draw panel runs on top of these lists. Start checks two guards: the chosen prize must have enough units, and enough participants must still be eligible. A rolling display then shows random eligible names on each tick. Stop draws winners, pairwise distinct as long as the participant list repeats no name, by repeatedly splicing a random element out of a copy of the eligible list. It appends them to the ledger and takes the drawn number of units off the prize. The ledger view deletes entries and gives the unit back. Two configuration forms add, edit and delete participants and prizes.

The model has one module per concern:

| module (file) | contents |
|---|---|
| `Records` (records.dfy) | the record types, the session value, and the list operations the handlers share: `filter` by index, indexed assignment on a copy |
| `JsText` (js_text.dfy) | JavaScript's `trim`, with ECMAScript's white-space set written out by code point |
| `Inventory` (inventory.dfy) | prize lookup (`find`), the count adjustment (`map`), the available-prize filter, stock and ledger tallies |
| `Eligibility` (eligibility.dfy) | who may still be drawn |
| `Selection` (selection.dfy) | the tick's random names and the splice-based commit loop, as an imperative method proved against a recursive specification |
| `DrawEngine` (draw_engine.dfy) | the start guards, the commit as a session transition, and the count-input clamp |
| `HomePage` (home.dfy) | the page's session state as a class with its setters |
| `Lottery` (lottery_panel.dfy) | the draw panel as a class: start, tick and stop |
| `WinnersList` (winners_list.dfy) | ledger deletion and the draw-then-delete round trip |
| `PrizeConfig` and `PeopleInput` (prize_config.dfy, people_input.dfy) | the two configuration forms as classes over their form fields |

**Randomness.** `Math.floor(Math.random() * n)` is modelled as an oracle: a sequence `rolls` of indices.

- Each tick index is below the size of the pool.
- The d-th commit index is below the pool size left after d splices (`FitsSplice`).

Every property holds for every such oracle.

**Two panels, one model.** The repository has two near-identical draw panels: `LotteryDisplay.tsx` and `CSSLotteryAnimation.tsx`. Only the second one is wired into the page. Their start, tick and stop logic is the same, so one model serves both:

- the pure steps cite `LotteryDisplay.tsx`;
- the panel class cites the wired `CSSLotteryAnimation.tsx`, including its count clamp.

**Three behaviours of the code as written.** The model keeps all three and states each as a lemma.

- `DrawEngine.CountEditOverdraws`: stop re-reads the count field instead of using the count the guard approved at start. A count raised while the roll runs can therefore take a prize below zero.
- `DrawEngine.DuplicateNameOverdraws`: nothing keeps prize names unique (the prize form appends with no duplicate check). The start guard checks only the first prize with the chosen name, but stop decrements every prize with that name, so a later one can go below zero. The no-negative-count and conservation lemmas therefore assume unique names, or a single holder of the drawn name.
- `PeopleInput.EditCanDuplicate`: editing a participant has no duplicate check.

## Model

| member | source | states |
|---|---|---|
| Records.DeleteAt | app/components/WinnersList.tsx:29 | `filter((_, i) => i !== index)`: a valid index shortens the list by exactly one; any other index leaves the list unchanged |
| Records.DeleteAtSlices | app/components/PrizeConfig.tsx:40-43 | deleting at a valid index keeps the entries before and after it, in their original order |
| Records.DeleteAtMultiset | app/components/PeopleInput.tsx:28-31 | deleting removes exactly one occurrence of the deleted element and keeps every other element |
| Records.DeleteAtKeepsDistinct | app/components/PeopleInput.tsx:28-31 | deleting a participant keeps a duplicate-free list duplicate-free |
| Records.Assign | app/components/PeopleInput.tsx:17-18 | `copy[editIndex] = x`: within the list, only that position is replaced and the length is kept; past the end the value is appended |
| Records.NamesOfAward | app/components/CSSLotteryAnimation.tsx:98 | the names of a batch of ledger entries are the drawn names in draw order |
| Records.AwardEntries | app/components/CSSLotteryAnimation.tsx:87 | every entry of a batch records the current prize and one of the drawn names |
| JsText.TrimStart | app/components/PrizeConfig.tsx:20-23 | leading trim returns a suffix, removes only white space, and leaves no white space in front |
| JsText.TrimEnd | app/components/PrizeConfig.tsx:20-23 | trailing trim returns a prefix, removes only white space, and leaves no white space at the end |
| JsText.Trim | app/components/PeopleInput.tsx:15 | `trim()` leaves no white space at either end and never lengthens |
| JsText.TrimIsInfix | app/components/PeopleInput.tsx:18 | the trimmed name is an infix of the input with only white space on either side |
| JsText.TrimEmptyIffBlank | app/components/PeopleInput.tsx:15 | `!name.trim()` holds exactly when the input is all white space |
| JsText.TrimIdempotent | app/components/PrizeConfig.tsx:21-22 | trimming a trimmed string changes nothing |
| Inventory.Find | app/components/LotteryDisplay.tsx:50 | `find` is `None` exactly when no prize has the name; otherwise it is the first prize with that name |
| Inventory.Adjust | app/components/LotteryDisplay.tsx:101-103 | the prize `map`: matching prizes change count by delta; others are unchanged; order, names and images are kept |
| Inventory.AdjustStock | app/components/CSSLotteryAnimation.tsx:93-95 | an adjustment moves the stock of its prize by delta per holding entry, and no other prize's stock |
| Inventory.AwardedAppend | app/page.tsx:38 | the units recorded by a concatenated ledger are the sum of the units in the two parts |
| Inventory.AwardedOfAward | app/components/CSSLotteryAnimation.tsx:87 | a batch for one prize records one unit of that prize per name, and none of any other |
| Inventory.AwardedDelete | app/components/WinnersList.tsx:29 | deleting an entry removes one recorded unit of its own prize and no other |
| Inventory.BatchConserves | app/components/CSSLotteryAnimation.tsx:87-95 | recording n names and taking n units off a prize keeps stock plus ledger constant, for a uniquely held prize and for every other prize |
| Inventory.UniqueHolder | app/components/LotteryDisplay.tsx:50 | with unique names, a found prize is the only holder of its name and its count is the whole stock |
| Inventory.NotHeld | app/components/LotteryDisplay.tsx:50 | a name that no prize carries has no holder and zero stock |
| Inventory.DecrementKeepsNonNegative | app/components/LotteryDisplay.tsx:101-103 | with unique prize names, taking at most the found prize's count off it keeps every count non-negative |
| Inventory.AvailablePrizes | app/components/LotteryDisplay.tsx:109 | exactly the prizes with count > 0 are offered |
| Eligibility.Eligible | app/components/LotteryDisplay.tsx:59 | a participant is eligible exactly when no ledger entry names them; nobody is added, and duplicate-freedom is kept |
| Eligibility.EligibleWithEmptyLedger | app/components/CSSLotteryAnimation.tsx:50 | with an empty ledger every participant is eligible |
| Eligibility.EligibleAfterAppend | app/page.tsx:37-39 | after an append, eligible means eligible before and not named in the appended entries |
| Eligibility.DeletedWinnerEligibleAgain | app/components/WinnersList.tsx:29 | deleting the only entry for a participant makes them eligible again, even when other names repeat in the ledger |
| Selection.RollNames | app/components/LotteryDisplay.tsx:70-76 | a tick shows exactly `count` names, each from the pool |
| Selection.SpliceDraw | app/components/LotteryDisplay.tsx:91-97 | the splice loop draws min(count, pool size) names, and none when count <= 0 |
| Selection.SpliceDrawMultiset | app/components/CSSLotteryAnimation.tsx:86 | the draw is a sub-multiset of the pool, since each position is spliced out at most once |
| Selection.SpliceDrawMembers | app/components/LotteryDisplay.tsx:93-95 | every drawn name is in the pool |
| Selection.SpliceDrawDistinct | app/components/LotteryDisplay.tsx:91-97 | from a duplicate-free pool the drawn names are pairwise distinct |
| Selection.SpliceStepDistinct | app/components/CSSLotteryAnimation.tsx:86 | a fresh name in front of a distinct draw from the rest of the pool stays distinct |
| Selection.DeletedIsGone | app/components/CSSLotteryAnimation.tsx:86 | in a duplicate-free pool the spliced name is not left in the pool |
| Selection.ConsDistinct | app/components/CSSLotteryAnimation.tsx:87 | a name outside the rest of the pool, pushed before a distinct draw from it, keeps the batch distinct |
| Selection.DrawWinners | app/components/CSSLotteryAnimation.tsx:80-89 | the commit loop (splice from a local copy, push `{name, prize}`) returns exactly the spliced draw, each entry tagged with the prize; the caller's list is a value and is not changed |
| DrawEngine.CheckStart | app/components/CSSLotteryAnimation.tsx:40-58 | a prize shortage is reported exactly when no prize has the name or the first one found has fewer units than requested; ready exactly when it has enough and enough participants are eligible |
| DrawEngine.Commit | app/components/CSSLotteryAnimation.tsx:73-96 | stop keeps the participants, keeps the old ledger as a prefix, and appends min(count, eligible) entries |
| DrawEngine.CommitWinners | app/components/LotteryDisplay.tsx:88-97 | the new entries number min(count, eligible); they are distinct when participants are; each records the current prize and a participant who was eligible |
| DrawEngine.CommitPrizes | app/components/LotteryDisplay.tsx:101-104 | only prizes named like the current prize change, each by exactly the number of new entries |
| DrawEngine.GuardedCommitKeepsStock | app/components/LotteryDisplay.tsx:50-66 | when the start guards hold for the committed state, names are unique and no count is negative, no count becomes negative |
| DrawEngine.CommitWithinStock | app/components/LotteryDisplay.tsx:101-104 | with unique prize names, drawing no more than the found prize holds keeps every count non-negative |
| DrawEngine.CommitConserves | app/components/CSSLotteryAnimation.tsx:87-96 | stock plus ledger units stay constant for a uniquely held drawn prize and for every other prize |
| DrawEngine.CountEditOverdraws | app/components/CSSLotteryAnimation.tsx:40-95 | the guard approves a request of 1 for a prize with 1 unit and three participants; three rolls at index 0 are valid; a stop after the count is raised to 3 leaves the prize at -2 |
| DrawEngine.DuplicateNameOverdraws | app/components/CSSLotteryAnimation.tsx:40-95 | with non-negative but duplicated prize names "A" (5 units, then 1), the guard approves a request of 3 against the first, and stop leaves the second at -2 |
| DrawEngine.ClampCount | app/components/CSSLotteryAnimation.tsx:118 | the count input is never 0 and never above 5; 0 and unparsable text become 1; a negative number passes through |
| HomePage.Home.constructor | app/page.tsx:17-19 | participants, prizes and ledger start empty |
| HomePage.Home.HandleLotteryComplete | app/page.tsx:37-39 | the ledger becomes the old ledger followed by the new entries in draw order; participants and prizes are unchanged |
| HomePage.Home.SetPrizes | app/page.tsx:18 | the prize setter replaces the prize list only |
| HomePage.Home.SetWinners | app/page.tsx:19 | the ledger setter replaces the ledger only |
| HomePage.AppendKeepsNamesDistinct | app/page.tsx:38 | a duplicate-free batch of eligible winners, appended to a ledger that names nobody twice, keeps it so |
| Lottery.LotteryPanel.constructor | app/components/CSSLotteryAnimation.tsx:28-31 | not rolling, no prize, count 1, five empty name slots |
| Lottery.LotteryPanel.ChoosePrize | app/components/LotteryDisplay.tsx:121 | the chosen name becomes the current prize |
| Lottery.LotteryPanel.SetCount | app/components/CSSLotteryAnimation.tsx:118 | the count field takes the clamped input |
| Lottery.LotteryPanel.Start | app/components/CSSLotteryAnimation.tsx:34-71 | while rolling, it acts as stop and leaves the rolling state. Otherwise no list changes. A failed guard changes nothing. Passing guards set the rolling state, capture the eligible list and count, and show the first tick (unchanged names for a negative count) |
| Lottery.LotteryPanel.Tick | app/components/CSSLotteryAnimation.tsx:62-68 | a tick rewrites only the displayed names: the captured count of names, each from the captured eligible list |
| Lottery.LotteryPanel.Stop | app/components/CSSLotteryAnimation.tsx:73-99 | stop leaves the rolling state, moves the session to `Commit` with the current prize and count, and shows the drawn names in order |
| WinnersList.DeleteWinner | app/components/WinnersList.tsx:27-39 | participants are kept; an index outside the ledger changes nothing |
| WinnersList.HandleDelete | app/components/WinnersList.tsx:27-39 | the page's session becomes `DeleteWinner` of the old one |
| WinnersList.DeleteWinnerEffect | app/components/WinnersList.tsx:28-38 | the ledger loses exactly the entry at the index, the rest in order; prizes named by it gain 1, others are unchanged, and with no matching prize the prize list is unchanged |
| WinnersList.DeleteConserves | app/components/WinnersList.tsx:27-39 | stock plus ledger units stay constant for a uniquely held prize of the deleted entry and for every other prize |
| WinnersList.UndoBatch | app/components/WinnersList.tsx:27-39 | deleting, newest first, a batch recorded for one prize restores the ledger and the prize counts before it |
| WinnersList.UndoCommit | app/components/WinnersList.tsx:27-39 | draw then delete the new entries, newest first: the session before the draw comes back exactly, without needing unique prize names |
| PrizeConfig.EntryNormal | app/components/PrizeConfig.tsx:20-25 | a stored prize has a non-empty name trimmed at both ends, a trimmed image, and the form's count, or 1 for a count of 0 |
| PrizeConfig.EntryIdempotent | app/components/PrizeConfig.tsx:21-25 | a stored prize is in normal form: storing it again from the edit form gives the same entry |
| PrizeConfig.PrizeForm.constructor | app/components/PrizeConfig.tsx:13-16 | empty name and image, count 1, add mode |
| PrizeConfig.PrizeForm.Submit | app/components/PrizeConfig.tsx:18-38 | a blank name changes nothing; edit mode replaces position `editIndex` and adds nothing; add mode appends; the form resets to "", "", 1 in add mode |
| PrizeConfig.PrizeForm.Edit | app/components/PrizeConfig.tsx:45-51 | the form loads the prize's fields and enters edit mode for that index; the prize list is untouched |
| PeopleInput.AddPerson | app/components/PeopleInput.tsx:21-23 | the trimmed name ends up in the list, existing names stay in place, a present name adds nothing, and duplicate-freedom is kept |
| PeopleInput.EditCanDuplicate | app/components/PeopleInput.tsx:16-20 | an edit can introduce a duplicate name, since it has no duplicate check |
| PeopleInput.PeopleForm.constructor | app/components/PeopleInput.tsx:10-11 | empty name, add mode |
| PeopleInput.PeopleForm.Submit | app/components/PeopleInput.tsx:13-26 | a blank name changes nothing; edit mode replaces position `editIndex` with the trimmed name; add mode appends it unless present; the input is cleared |
| PeopleInput.PeopleForm.Edit | app/components/PeopleInput.tsx:33-36 | the form takes the name at the index and enters edit mode; the list is untouched |

## Left out

- Rendering, the MUI/notistack components, the snackbar messages (the thunks are built but never called), the fireworks animation and the result display: none of them holds draw logic.
- Persistence: the `localStorage`/JSON effects of the page and the admin page are not part of this model. The page's lists are only changed through the setters modelled here.
- The timer: `setTimeout`/`clearTimeout` become the explicit `Tick` and `Stop` methods. Cadence and wall-clock time are not modelled.
- `Math.random`: it becomes the `rolls` oracle. Fairness and uniformity of the draw are not modelled.
- `parseInt` and `NaN`: the count inputs are given already parsed (`Option<int>`, `None` for text that does not parse). The unclamped input of `LotteryDisplay.tsx:135` can store `NaN`; that case is not modelled.
- The broken prize selector of `CSSLotteryAnimation.tsx:112` reads `event.target.name`. `ChoosePrize` models the working selector of `LotteryDisplay.tsx:121` instead.
- The start button is disabled while no prize is chosen. The model lets start run and refuses it by the prize guard, because no stored prize has an empty name.
- Records.Assign: an `editIndex` past the end (possible only after the list shrank during an edit) appends in the model. JavaScript would leave holes for an index more than one past the end.
- WinnersList.DeleteWinner: for an index outside the ledger, the handler hands an equal copy of the ledger to the setter. The prize `map` then throws on the missing record when any prize is configured, and returns an empty list again when none is. The model records both as no change.
- Lottery.LotteryPanel.Start: a negative count throws a `RangeError` in the first tick after the rolling flag is set. The model leaves the panel rolling with its names unchanged and no tick scheduled, so `Tick` requires a non-negative captured count.
- Integer width: counts are unbounded integers. JavaScript numbers lose precision only above 2^53, which no realistic prize count reaches (the prize form stores any integer typed in).
