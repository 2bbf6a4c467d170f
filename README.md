# Aware: a verified model of the game rules

Aware is a mobile avoidance game. The player is a circle that starts at
the centre of the screen. Arrows spawn just off the edges and fly past the
player's position. The timer runs until an arrow touches the circle. The
game context offers an entry point to move the player, and the storage
module offers a local leaderboard of survival times. In this version of the
app no screen moves the player and no screen saves a score: both entry
points exist but are never called. This project models the rules of the
game in Dafny and proves properties about them:

- the session and its 16 ms tick (spawn, move, collide, cull) as a `Session` class (`session.dfy`, module `Game`);
- the spawn sampling on the screen edges, with every random draw as a parameter (`random.dfy`, `Random`);
- the collision test, in squared form (`collision.dfy`, `Collision`);
- the `MM:SS.CC` timer display (`animation.dfy`, `Animation`);
- the local leaderboard update: keep-best upsert, stable descending sort, clearing one user, and the username check (`storage.dfy`, `Storage`);
- the light/dark/system theme preference (`theme.dfy`, `Theme`).

Shared pieces:

- `constants.dfy` holds the tuning constants.
- `types.dfy` holds the position, arrow and phase types.
- `seqs.dfy` holds a generic order-keeping `Filter`, JavaScript's `Array.prototype.filter`.
- `wrappers.dfy` holds `Option`.
- `arith.dfy` holds three facts about real products: a product of non-negatives is non-negative, a product of positives is positive, and a square is non-negative.

Some things the running app gets from its host become parameters of the model:

- The clock (`Date.now`) is the `now` argument of `Tick`.
- The window size (`Dimensions.get`) is `width`/`height` arguments.
- Each `Math.random()` draw is a real in [0, 1). A spawn makes five draws: edge, side, offset along the edge, the id, then the speed. The four that decide position and speed are bundled in `Random.SpawnDraws`.
- The arrow id (`generateId`, which consumes the fourth draw) is an `id: nat` argument instead.
- The floating-point geometry of the tick becomes two function arguments of `Tick`:
  - `aim` computes the target point beyond the player, from the spawn point, along the normalised direction, at distance width + height.
  - `advance` moves an arrow by `speed` towards its target (the `atan2`/`cos`/`sin` step).

  The model knows only that these functions change an arrow's position and set its target.
- Persisted values (the stored username, the stored theme) are `Option<string>` arguments. `None` stands for `null`.

## Model

| member | source | states |
|---|---|---|
| `Game.Session.constructor` | src/context/GameContext.tsx:29-42 | The provider starts idle, with no arrows, elapsed 0, last spawn 0 and the player at the window centre. |
| `Game.Session.UpdatePlayerPosition` | src/context/GameContext.tsx:45-51 | The player position is replaced in every phase, and nothing else changes. |
| `Game.Session.StartGame` | src/context/GameContext.tsx:54-67 | From any phase: playing, elapsed 0, no arrows, last spawn 0, player centred. |
| `Game.Session.EndGame` | src/context/GameContext.tsx:70-76 | From any phase the state becomes game over. Elapsed time, arrows, player and last spawn are unchanged, so a second call changes nothing. |
| `Game.Session.ResetGame` | src/context/GameContext.tsx:79-91 | Idle, elapsed 0, no arrows, player centred. The last spawn time is kept, because the source does not reset it. |
| `Game.Session.SpawnIfDue` | src/context/GameContext.tsx:101-140 | While playing: when `now - lastSpawn > 450` (strict), `lastSpawn` becomes `now` even if the cap blocks the spawn, and below 20 arrows the new arrow is appended. Otherwise nothing changes. Phase, elapsed time and player are untouched, and `Valid` is preserved. It requires that a due spawn does not land on the player. |
| `Game.Session.MoveArrows` | src/context/GameContext.tsx:143-183 | Every arrow is stepped. The result is whether a moved arrow hits the player. The kept arrows are the moved ones in the play area. Nothing else changes, and `Valid` is preserved. |
| `Game.Session.Tick` | src/context/GameContext.tsx:97-184 | Outside `playing` nothing changes. While playing, the tick does the following: (1) elapsed grows by exactly 16; (2) when `now - lastSpawn > 450` (strict), `lastSpawn` becomes `now` even if the cap blocks the spawn; (3) the new arrows are the spawned, moved, in-area arrows; (4) the result is true iff some moved arrow collides with the player. `Valid` (at most 20 arrows, elapsed a non-negative multiple of 16, idle implies empty and zero) is preserved. It requires that a due spawn does not land on the player, since the source divides by that distance. |
| `Game.ResetTwice` | src/context/GameContext.tsx:79-91 | Resetting twice leaves the same state as resetting once: idle, no arrows, elapsed 0, the player centred and the last spawn time as before the first reset. |
| `Game.EndTwice` | src/context/GameContext.tsx:70-76 | Ending twice leaves the same state as ending once: game over, with elapsed time, arrows, player and last spawn time all as before the first call. |
| `Game.FirstTick` | src/context/GameContext.tsx:54-184 | Start, then tick at a clock reading past 450 ms. The first tick spawns at once: the arrows become the new arrow, aimed from the centre, moved one step and culled. The timer reads 16, the last spawn time is `now`, and the result is whether that moved arrow hits the centred player. A reported collision followed by `EndGame` leaves the game over with those arrows. An on-screen player meets the spawn precondition. |
| `Game.NewArrow` | src/context/GameContext.tsx:108-135 | The arrow a spawn creates: id, the edge point, angle 0, the drawn speed, and the target that `aim` gives from the spawn point past the player. No contract of its own; `SpawnInPlayArea` and `Random.EdgePositionOffScreen` state where it starts. |
| `Game.SpawnStep` | src/context/GameContext.tsx:106-140 | The spawn updater never takes a list of at most 20 arrows above 20. It adds at most one arrow, at the end, and it is the new arrow. The earlier arrows stay in front in their order. An arrow is added exactly when there were fewer than 20. |
| `Game.SpawnOnEmpty` | src/context/GameContext.tsx:106-137 | A spawn into an empty list gives the one-arrow list of the new arrow. |
| `Game.MoveArrow` | src/context/GameContext.tsx:146-161 | One arrow after one step: `...arrow` with only the position replaced. No contract of its own; `MoveAll` states the step element by element. |
| `Game.MoveAll` | src/context/GameContext.tsx:146-161 | The count is kept. Each arrow keeps its id, angle, speed and target, and only its position is stepped, index by index, so the order is kept. |
| `Game.AnyCollision` | src/context/GameContext.tsx:164-166 | True iff some arrow's position collides with the player. |
| `Game.Cull` | src/context/GameContext.tsx:173-182 | An arrow survives iff it lies in [-300, w+300] x [-300, h+300], bounds included. The cull never adds arrows. |
| `Game.CullKeepsOrder` | src/context/GameContext.tsx:177 | The cull distributes over concatenation, so survivors keep their relative order. |
| `Game.TickArrows` | src/context/GameContext.tsx:101-183 | The arrows after one tick: spawn when due, move, cull. No contract of its own; `TickArrowsBounded`, `TickArrowsExact` and `CullKeepsOrder` state its properties, and `Session.Tick` sets the arrows to it. |
| `Game.TickArrowsBounded` | src/context/GameContext.tsx:107 | After a tick there are never more than 20 arrows, if there were at most 20 before. |
| `Game.TickArrowsExact` | src/context/GameContext.tsx:177-182 | A spawned-and-moved arrow is on screen after the tick iff its new position is in the play area. |
| `Game.SpawnInPlayArea` | src/utils/random.ts:10-68 | A freshly spawned arrow starts inside the cull area (150 < 300). |
| `Random.RandomBetween` | src/utils/random.ts:5-7 | `randomBetween(min, max)` for a given draw. No contract of its own; `RandomBetweenBounds` states its range. |
| `Random.ScaleBounds` | src/utils/random.ts:6 | A draw in [0, 1) times a span lies in [0, span), and is 0 for a zero span. |
| `Random.RandomBetweenBounds` | src/utils/random.ts:5-7 | `randomBetween(min, max)` lies in [min, max) when min < max, and equals min when min = max. |
| `Random.EdgeIndex` | src/utils/random.ts:16 | `Math.floor(Math.random() * 4)` for a given draw. No contract of its own; `EdgeIndexInRange` states its range. |
| `Random.EdgeIndexInRange` | src/utils/random.ts:16 | floor(4r) is 0, 1, 2 or 3, so the default branch is unreachable. |
| `Random.AlongEdge` | src/utils/random.ts:25-27 | The coordinate along an edge: the first quarter when the side draw is below 0.5, else the last quarter. No contract of its own; `AlongEdgeBounds` states its range. |
| `Random.AlongEdgeBounds` | src/utils/random.ts:25-27 | The along-edge coordinate is in [0, extent/4) or [3·extent/4, extent), never in the middle half. |
| `Random.RandomEdgePosition` | src/utils/random.ts:10-68 | `randomEdgePosition(width, height)` for given draws. No contract of its own; `EdgePositionOnChosenEdge`, `EdgePositionOffScreen` and `SpawnAwayFromOnScreenPlayer` state its properties. |
| `Random.EdgePositionOnChosenEdge` | src/utils/random.ts:21-65 | Top: y = -150. Right: x = w+150. Bottom: y = h+150. Left: x = -150. The other coordinate is outside the middle half. |
| `Random.EdgePositionOffScreen` | src/utils/random.ts:12 | Every spawn point is exactly 150 beyond one edge, within the span of that edge, and never inside [0,w] x [0,h]. |
| `Random.SpawnAwayFromOnScreenPlayer` | src/utils/random.ts:10-68 | A spawn point never coincides with a player on the screen. |
| `Random.RandomArrowSpeed` | src/utils/random.ts:71-73 | `randomArrowSpeed()` for a given draw. No contract of its own; `ArrowSpeedInRange` states its range. |
| `Random.ArrowSpeedInRange` | src/utils/random.ts:71-73 | The speed lies between MIN_SPEED and MAX_SPEED. With both at 5 it is exactly 5. |
| `Collision.CheckCollision` | src/utils/collision.ts:10-13 | `checkCollision`, in squared form. No contract of its own; `CollisionIffWithinHitRadius` shows it is the source test `distance < 27.5`, and `BoundaryIsNoHit`, `HitJustInsideNotOutside`, `CollisionMonotone` and `SamePointCollides` state its behaviour. |
| `Collision.SquaredDistance` | src/utils/collision.ts:5-7 | The squared distance is non-negative and zero for identical points. |
| `Collision.DistanceSymmetric` | src/utils/collision.ts:5-7 | The distance is symmetric in its two points. |
| `Collision.BelowHitRadius` | src/utils/collision.ts:12 | For non-negative d: d < 27.5 iff d² < 27.5². |
| `Collision.CollisionIffWithinHitRadius` | src/utils/collision.ts:10-13 | With d the distance, the squared test holds iff d < RADIUS + SIZE/2 = 27.5. |
| `Collision.AxisDistance` | src/utils/collision.ts:6 | A point k away along one axis is at squared distance k². |
| `Collision.BoundaryIsNoHit` | src/utils/collision.ts:12 | The test is strict: no arrow exactly 27.5 away (squared distance 27.5²), in any direction, collides; in particular the points 27.5 away along either axis do not. |
| `Collision.HitJustInsideNotOutside` | src/utils/collision.ts:12 | A point just inside 27.5 collides, and one just outside does not. |
| `Collision.CollisionMonotone` | src/utils/collision.ts:11-12 | If a point at distance d collides, every point at distance at most d collides. |
| `Collision.SamePointCollides` | src/utils/collision.ts:12 | An arrow at the player's own position collides. |
| `Animation.FormatTime` | src/utils/animation.ts:21-27 | `formatTime`. No contract of its own; `FormatTimeRoundTrip`, `FormatTimeShape`, `FormatTimeLongGame` and the worked examples state its properties. |
| `Animation.Minutes` | src/utils/animation.ts:22 | `Math.floor(timeInMs / 60000)`. No contract of its own; `FieldsRecombine` states how the three fields recombine. |
| `Animation.Field` | src/utils/animation.ts:26 | One field: `n.toString().padStart(2, '0')`. No contract of its own; `PaddedField` and `FieldExamples` state its properties. |
| `Animation.Display` | src/utils/animation.ts:26 | The template `${mm}:${ss}.${cc}` of three fields. No contract of its own; `DisplayShape` and `DisplayRoundTrip` state its properties. |
| `Animation.NatToString` | src/utils/animation.ts:26 | `toString()` gives at least one character, one exactly below 10, two for 10..99 and three or more from 100. |
| `Animation.PadTwo` | src/utils/animation.ts:26 | `padStart(2, '0')` has length max(2, n). |
| `Animation.PadTwoZeros` | src/utils/animation.ts:26 | Padding puts only '0' in front and ends with the input string. |
| `Animation.NatToStringDigits` | src/utils/animation.ts:26 | The numeral consists of decimal digits only. |
| `Animation.Seconds` | src/utils/animation.ts:23 | The seconds field is below 60. |
| `Animation.Centis` | src/utils/animation.ts:24 | The hundredths field is below 100. |
| `Animation.ParseNatToString` | src/utils/animation.ts:26 | The numeral reads back as its number. |
| `Animation.ParsePadTwo` | src/utils/animation.ts:26 | Zero padding keeps the value and keeps the string all digits. |
| `Animation.FieldsRecombine` | src/utils/animation.ts:22-24 | minutes·60000 + seconds·1000 + hundredths·10 = t − (t mod 10). |
| `Animation.SplitDisplay` | src/utils/animation.ts:26 | In a string joined as `MM:SS.CC` from fields of two or more, two and two characters, ':' sits six and '.' three characters from the end, and the three slices between them are the fields. |
| `Animation.ParseTimeOfFields` | src/utils/animation.ts:26 | A string joined as `MM:SS.CC` reads back as its three fields. |
| `Animation.PaddedField` | src/utils/animation.ts:26 | A padded field has two characters below 100 and three or more from 100. It is all digits and reads back as its value. |
| `Animation.DisplayRoundTrip` | src/utils/animation.ts:26 | A display of minutes, seconds below 100 and hundredths below 100 reads back as minutes·60000 + seconds·1000 + hundredths·10. |
| `Animation.DisplayShape` | src/utils/animation.ts:26 | In a display, ':' sits six and '.' three characters from the end. The minutes field comes before ':', the seconds between, the hundredths after '.'. |
| `Animation.FormatTimeRoundTrip` | src/utils/animation.ts:21-27 | Reading the display back gives t rounded down to a multiple of 10 (the lossy round trip). |
| `Animation.FormatTimeShape` | src/utils/animation.ts:21-27 | Below 100 minutes the display has 8 characters: the two-digit minutes field at 0..2, ':' at index 2, the seconds field at 3..5, '.' at index 5 and the hundredths field at 6..8. |
| `Animation.FormatTimeLongGame` | src/utils/animation.ts:21-27 | From 100 minutes on, the minutes are not truncated: the display has 9 or more characters, and everything before the ':' six from the end is the full minutes field. |
| `Animation.FieldExamples` | src/utils/animation.ts:26 | The fields 0, 1, 5, 23 and 100 print as "00", "01", "05", "23" and "100". |
| `Animation.FormatTimeExample` | src/utils/animation.ts:21-27 | formatTime(65230) = "01:05.23". |
| `Animation.FormatTimeAtStart` | src/utils/animation.ts:21-27 | formatTime(0) = "00:00.00". |
| `Animation.FormatTimeHundredMinutes` | src/utils/animation.ts:21-27 | formatTime(6000000) = "100:00.00". |
| `Storage.Upsert` | src/utils/storage.ts:55-73 | The keep-best update before the sort. No contract of its own; the `Upsert…` lemmas below state its properties. |
| `Storage.Insert` | src/utils/storage.ts:76 | One insertion step of the stable sort. No contract of its own; the `Insert…` lemmas below state its properties. |
| `Storage.SortByScore` | src/utils/storage.ts:76 | `sort((a, b) => b.score - a.score)`, as a stable insertion sort. No contract of its own; `SortByScoreCorrect`, `SortByScoreStable` and `SortByScoreKeepsUnique` state its properties. |
| `Storage.SaveScoreList` | src/utils/storage.ts:42-83 | The leaderboard `saveScore` writes: the sorted keep-best update. No contract of its own; `SaveScoreCorrect` and `SaveScoreBest` state its properties. |
| `Storage.FirstIndexOf` | src/utils/storage.ts:55 | `findIndex` finds nothing iff the user has no entry. Otherwise it returns an index of the user's entry with no earlier entry for the user. |
| `Storage.UpsertAbsent` | src/utils/storage.ts:70-73 | A user without an entry is appended, and the length grows by one. |
| `Storage.UpsertPresent` | src/utils/storage.ts:57-69 | For a user with an entry, only the first matching entry can change, and only for a strictly higher score. Otherwise the list is unchanged, and the length never changes. |
| `Storage.UpsertKeepsBest` | src/utils/storage.ts:62-64 | The user's first entry ends with max(old score, new score). |
| `Storage.UpsertMultiset` | src/utils/storage.ts:55-73 | The entries change as a multiset by exactly the replaced entry out and the new entry in, or by the appended entry, or not at all. |
| `Storage.UpsertKeepsUnique` | src/utils/storage.ts:55-73 | If usernames were unique before the update, they are unique after it. |
| `Storage.UpsertHasEntry` | src/utils/storage.ts:55-73 | After the update the user has an entry. |
| `Storage.InsertMultiset` | src/utils/storage.ts:76 | Insertion adds exactly the inserted entry. |
| `Storage.InsertSorted` | src/utils/storage.ts:76 | Insertion into a list sorted by descending score keeps it sorted. |
| `Storage.InsertMembers` | src/utils/storage.ts:76 | Insertion keeps every entry of the list, adds the inserted one and nothing else. |
| `Storage.InsertKeepsUnique` | src/utils/storage.ts:76 | Inserting an entry whose username is absent keeps usernames unique. |
| `Storage.InsertStable` | src/utils/storage.ts:76 | Insertion keeps the relative order of the entries with any one score, and puts the inserted entry in front of the others with its score. |
| `Storage.SortByScoreCorrect` | src/utils/storage.ts:76 | `sort((a, b) => b.score - a.score)` yields a list sorted by non-increasing score that is a permutation of its input. |
| `Storage.SortByScoreStable` | src/utils/storage.ts:76 | The sort is stable: the entries with any one score keep their original relative order. |
| `Storage.SortByScoreKeepsUnique` | src/utils/storage.ts:76 | Sorting keeps usernames unique. |
| `Storage.SaveScoreCorrect` | src/utils/storage.ts:42-83 | After `saveScore` the list is sorted, is a permutation of the updated list and contains the user. Unique usernames stay unique. |
| `Storage.SaveScoreBest` | src/utils/storage.ts:55-76 | With unique usernames, the user's entry after `saveScore` scores the new score if the user was absent, and max(old, new) otherwise. |
| `Storage.WithoutUser` | src/utils/storage.ts:109 | `clearUserScore` leaves no entry of the user, keeps every other entry and adds none. |
| `Storage.WithoutUserSorted` | src/utils/storage.ts:109 | Clearing a user keeps a sorted leaderboard sorted (the filter keeps order). |
| `Storage.WithoutUserIdempotent` | src/utils/storage.ts:109 | Clearing an absent user changes nothing, and clearing twice is the same as clearing once. |
| `Storage.TrimStart` | src/utils/storage.ts:38 | Only leading whitespace is dropped, and the rest starts with a non-whitespace character. |
| `Storage.TrimEnd` | src/utils/storage.ts:38 | Only trailing whitespace is dropped, and the rest ends with a non-whitespace character. |
| `Storage.Trim` | src/utils/storage.ts:38 | `trim()`. No contract of its own; `TrimEmptyIffBlank` states when it is empty, from the contracts of `TrimStart` and `TrimEnd`. |
| `Storage.HasUsername` | src/utils/storage.ts:36-39 | `hasUsername` for the stored value. No contract of its own; `HasUsernameIff` states when it holds. |
| `Storage.TrimEmptyIffBlank` | src/utils/storage.ts:38 | `trim()` gives "" iff every character is whitespace. |
| `Storage.HasUsernameIff` | src/utils/storage.ts:36-39 | `hasUsername` is true iff a name is stored and it has a non-whitespace character. |
| `Storage.Leaderboard.constructor` | src/utils/storage.ts:86-94 | With nothing stored the leaderboard is empty. |
| `Storage.Leaderboard.FindIndex` | src/utils/storage.ts:55 | The loop returns -1 iff the user has no entry, and otherwise the index that `FirstIndexOf` gives. |
| `Storage.Leaderboard.SaveScore` | src/utils/storage.ts:42-83 | The stored list becomes the sorted keep-best update of the old one. |
| `Storage.Leaderboard.ClearUserScore` | src/utils/storage.ts:106-114 | The stored list becomes the old one without the user's entries. |
| `Storage.Leaderboard.ClearLeaderboard` | src/utils/storage.ts:97-103 | The stored list becomes empty. |
| `Storage.FirstIndexIsFirst` | src/utils/storage.ts:55 | An index that holds the user, with no earlier entry for the user, is what `findIndex` returns. |
| `Theme.ParseThemeName` | src/context/ThemeContext.tsx:110 | A saved string is accepted only if it is exactly the name of the choice it yields. |
| `Theme.ThemeNameRoundTrip` | src/context/ThemeContext.tsx:110-125 | Each of light, dark and system reads back as itself from its saved name. |
| `Theme.IsDarkMode` | src/context/ThemeContext.tsx:135-137 | `isDarkMode`: dark chosen, or system chosen while the system is dark. No contract of its own; `Toggled` and `ToggleTwiceFromSystem` state how the toggle changes it. |
| `Theme.Toggled` | src/context/ThemeContext.tsx:143-151 | The toggle never yields `system`, and for a fixed system scheme it negates `isDarkMode`. |
| `Theme.ToggleTwice` | src/context/ThemeContext.tsx:148 | Toggling twice from light or dark returns the original choice. |
| `Theme.ToggleTwiceFromSystem` | src/context/ThemeContext.tsx:145-146 | Toggling twice from `system` pins the scheme the system showed, with the same dark-mode flag. |
| `Theme.AfterLoad` | src/context/ThemeContext.tsx:109-112 | The load effect on the choice. No contract of its own; `AfterLoadAccepts` states when it changes the choice. |
| `Theme.AfterLoadAccepts` | src/context/ThemeContext.tsx:109-112 | A missing or unknown saved value leaves the choice. A valid name sets it, and any change comes from a valid name. |
| `Theme.ThemePreference.constructor` | src/context/ThemeContext.tsx:103 | The initial choice is `system`. |
| `Theme.ThemePreference.Toggle` | src/context/ThemeContext.tsx:143-151 | The choice becomes the toggled one: never `system`, with the dark-mode flag flipped. |
| `Theme.ThemePreference.SetThemeType` | src/context/ThemeContext.tsx:154 | The choice becomes the one given. |
| `Theme.ThemePreference.LoadSaved` | src/context/ThemeContext.tsx:106-119 | The choice becomes the load-effect result for what storage returned. |
| `Seqs.Filter` | src/context/GameContext.tsx:177 | A filter keeps exactly the elements that satisfy the predicate. It never grows the list or adds elements. |
| `Seqs.FilterAppend` | src/utils/storage.ts:109 | Filtering distributes over concatenation, so relative order is kept. |
| `Seqs.FilterAllKept` | src/utils/storage.ts:109 | A filter whose predicate holds for every element returns the list unchanged. |
| `Seqs.FilterIdempotent` | src/utils/storage.ts:109 | Filtering twice with the same predicate is the same as filtering once. |

## Left out

- The floating-point motion: the `atan2`/`cos`/`sin` step (src/context/GameContext.tsx:149-155, src/utils/animation.ts:4-18) and the `sqrt` normalisation of the spawn direction (src/context/GameContext.tsx:120-127). Both are function arguments of `Tick`. Only their effect on which field changes is modelled: a move changes only the position, and a spawn sets the target. The zero-length division becomes a precondition of `Tick`.
- Game.Session.Tick: covers one run of the interval callback. The scheduling is not modelled: `setInterval`/`clearInterval`, the `setTimeout(endGame, 0)` deferral, and ticks that may still run between a collision and that deferred call. The caller calls `EndGame` after a collision. Outside `playing` a tick is a no-op, which stands for "no interval scheduled".
- React batching of the two `setArrows` updaters in one tick is modelled as their sequential composition, which is how React applies queued updaters.
- `generateId` (a base-36 string from a float) is replaced by a caller-supplied `nat`. Uniqueness of ids is not modelled.
- `Dimensions.get`, `Date.now` and `Math.random` are parameters. Draws are reals in [0, 1), not doubles.
- Number formats: positions, speeds and draws are exact reals, not IEEE doubles. Scores and times are unbounded integers.
- Animation.FormatTime: the model takes a natural number. `formatTime` is called on the elapsed time (src/components/game/TimerDisplay.tsx:10, src/components/game/GameOverOverlay.tsx:16), which is a non-negative multiple of 16, and on scores loaded from storage (app/leaderboard.tsx:46), which can be any JSON number. Only non-negative integer inputs are modelled; negative or fractional inputs are not.
- Storage.SortByScore: the engine's in-place `Array.prototype.sort` is modelled as a stable insertion sort on a sequence. The result is the same, because the sort is stable (ECMAScript 2019 onwards). The in-place rearrangement of the array object is not modelled.
- Persistence: `AsyncStorage` reads and writes and `JSON.parse`/`JSON.stringify` (src/utils/storage.ts, src/context/ThemeContext.tsx:109,125) are not modelled. What storage returns is an argument, what would be written is the class field, and the storage error paths are left out. In particular, when reading the leaderboard fails or the stored value is missing or does not parse, `getLeaderboard` returns `[]` (src/utils/storage.ts:87-95), and `saveScore` then overwrites the stored leaderboard with a list holding only the new entry (src/utils/storage.ts:72,79); this overwrite is not modelled. The save-on-change effect of the theme (src/context/ThemeContext.tsx:122-132) is this same write.
- `saveUsername`/`getUsername` are plain storage calls. `hasUsername` takes the stored value as an argument.
- The `date` of a leaderboard entry (`new Date().toISOString()`) is an argument.
- The Supabase client, authentication, realtime leaderboard and storage routing (src/utils/supabaseStorage.ts, src/lib/supabase.ts, src/context/AuthContext.tsx, src/utils/storageManager.ts) are network code and are not part of this model.
- Screens and components (app/*.tsx, src/components/**) are presentation only. The UI flow that offers Start only in `idle` and "Play Again" via `resetGame` is not enforced by the model: like the source, `StartGame` is accepted in every phase.
- Score submission at game over: the game code does not do it (`endGame` only sets the phase), so it is not modelled.
