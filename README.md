# Loot simulator: a verified Dafny model

This project models the sequential core of the loot simulator, a console game.
The player slays monsters, and each monster's loot tables are rolled to decide what it drops.
The model is in Dafny 4.11.

- `game_types.dfy` (`GameTypes`) holds the records of `GameTypes.h`.
  - A `Treasure` has a type, a name and a drop weight. The default treasure has type `NONE` (-1) and weight 0.
  - A `LootTable` has a drop rate (1.0 by default) and a list of treasures.
  - A monster template has a name, a type and a list of tables.
  - The file also defines `Sum` over weights, with its small arithmetic lemmas.
- `roulette.dfy` (`Roulette`) models `LootTable::Roll`.
  - `Roll` is a method with the source's two loops.
  - It is proved equal to `RollResult`, which is a roulette walk `Walk` over the weights.
- `monster_loot.dfy` (`MonsterLoot`) models `Monster::RerollLoot`.
  - `Monster` is a class whose `tables` are an array partitioned in place and whose `lootDrops` field is rewritten.
  - `Partition` is an in-place two-pointer partition standing for `std::partition`, which does not keep order.
  - The bucket list, the single draw and the two loot branches are specified by `Buckets`, `SelectedBucket` and `LootFor`.
- `game_session.dfy` (`GameSession`) models the `Game` class.
  - It covers `LoadData` (with the parsed records as input), `CreateMonsterForType`, `SlayMonster` and `SlayBatchOfMonsters`.
  - The `LootSession` tally is specified by `Tally` over the list of kills.
- `controller.dfy` (`GameController`) models the menu logic of `GameController`.
  - It covers `TokenizeString` and `IsValidInput`, which parses only the first five characters of each token.
  - It covers the selection range set by `Initialize`, `GetOptionCategoryForSelection`, and the dispatch decision of `Run` / `GetMoveInput`.
- `enum_bindings.dfy` (`EnumBindings`) models the generator script `generate_enum_bindings.py`.
  - `id_to_enum` turns camelCase into UPPER_SNAKE.
  - The id→enum dictionaries are filled by `init_monster_enums` / `init_item_enums`.
  - It models the emitted enum body lines (`= -1` for the first entry, `= 0` for the second) and the `{ Type::VALUE, "key" },` binding lines.
  - The generated header `EnumDataBindings.h` serves as a concrete witness.

Randomness is injected.
- A uniform variate `u` in [0, 1) stands for each `GetRandomFloat` call.
- `GetRandomFloat(0, total)` becomes `ScaledDraw(u, total) = u * total`.
- `RerollLoot` takes a sequence `ds`: `ds[0]` picks the bucket and `ds[1..]` feed the table rolls.
- `CreateRandomMonster` becomes a `pick` parameter.

Weights are `real`, not `float`.

Three behaviours of the code that the model keeps as they are:
- `std::partition` does not keep the tables' relative order. `IsPartitionOf` states only a permutation with the exclusive tables first, and the session lemmas quantify over every such partition (`IsRerollOf`).
- Loading never checks drop rates: an exclusive sum above 1 or a negative weight is accepted. `LootSaturatedExclusives` shows what exclusive rates summing to 1 or more do: the unconditional tables are never rolled.
- `CreateMonsterForType` dereferences `end()` for an unknown type, so the model requires a known type.

## Model

| member | source | states |
|---|---|---|
| `Roulette.Roll` | loot-simulator/Game.cpp:44-67 | The method's two loops (weight total, then subtract-and-compare walk) return exactly `RollResult`: the walked treasure, or the default one when the walk falls through. |
| `Roulette.WalkIsFirstHit` | loot-simulator/Game.cpp:53-63 | The walk stops at the first index i whose residual r − Σ(weights before i) is below weight i. Every earlier residual is at least its weight. |
| `Roulette.WalkHitsBelowTotal` | loot-simulator/Game.cpp:53-66 | A draw in [0, Σweights) always stops on an element, so the fall-through is unreachable. |
| `Roulette.WalkStopsOnPositive` | loot-simulator/Game.cpp:54-63 | From a non-negative draw the walk never stops on a weight that is 0 or negative. |
| `Roulette.WalkMissesIff` | loot-simulator/Game.cpp:53-66 | With non-negative weights the walk falls through exactly when the draw is at least the total. |
| `Roulette.WalkSelectsInterval` | loot-simulator/Game.cpp:53-63 | Element k is chosen exactly when the draw lies in [Σ before k, Σ through k), a slice as wide as its weight. |
| `Roulette.WalkAppend` | loot-simulator/Game.cpp:105-114 | The walk over a concatenation reaches the second part only when the first part misses, with the residual reduced by the first part's total. |
| `Roulette.ScaledDraw` | loot-simulator/Game.cpp:30-34 | A variate in [0, 1) scaled to a positive total lands in [0, total); a total of 0 gives the draw 0. |
| `Roulette.RollReturnsMember` | loot-simulator/Game.cpp:53-66 | A table of positive total weight always yields one of its own treasures, of positive weight, and never the default. |
| `Roulette.RollNeverPicksZeroWeight` | loot-simulator/Game.cpp:54-63 | Whenever the total is non-negative, the result is the default or a member of the table of positive weight. |
| `Roulette.RollWithoutWeightIsDefault` | loot-simulator/Game.cpp:65-66 | An empty or all-zero-weight table yields the default treasure, whose type is `NONE` and weight 0. |
| `Roulette.DefaultTableRoll` | loot-simulator/GameTypes.h:58-73 | A default-constructed table (rate 1.0, no treasures) is never exclusive and always yields the default treasure. |
| `Roulette.RollSingleTreasure` | loot-simulator/Game.cpp:44-67 | A table with a single treasure of positive weight always yields that treasure. |
| `Roulette.RollSelectsInterval` | loot-simulator/Game.cpp:47-63 | With non-negative weights, treasure k is returned exactly when the scaled draw lies in its slice [Σ before k, Σ through k). |
| `MonsterLoot.ExclusiveCount` | loot-simulator/Game.cpp:84-90 | The number of tables whose drop rate is not 1.0; never more than the number of tables. |
| `MonsterLoot.SplitPointIsExclusiveCount` | loot-simulator/Game.cpp:90 | When the tables split at k into exclusive then unconditional ones, k is the exclusive count. |
| `MonsterLoot.ExclusiveFirstSplits` | loot-simulator/Game.cpp:84-125 | In tables with every exclusive one first, the first `numExclusive` are exactly the exclusive tables and the rest are all unconditional. |
| `MonsterLoot.ExclusiveCountPermutation` | loot-simulator/Game.cpp:84-90 | A permutation of the tables has the same exclusive count, so `numExclusive` does not depend on the partition's order. |
| `MonsterLoot.Swap` | loot-simulator/Game.cpp:84-88 | Exchanging two tables changes only those two slots and keeps the multiset of tables. |
| `MonsterLoot.Partition` | loot-simulator/Game.cpp:84-90 | In place, the tables become a permutation of the old ones. The first k are exclusive and the rest unconditional, and k is returned as the partition point. |
| `MonsterLoot.PartitionPointIsPartition` | loot-simulator/Game.cpp:84-90 | The partition's outcome is a permutation with every exclusive table first, and its split point is the exclusive count. |
| `MonsterLoot.BucketsShape` | loot-simulator/Game.cpp:93-101 | There are numExclusive + 1 buckets: the exclusive drop rates in table order, then 1 − Σexclusive. They sum to exactly 1. |
| `MonsterLoot.BuildDropRates` | loot-simulator/Game.cpp:93-101 | The accumulating loop produces exactly the bucket list `Buckets`. |
| `MonsterLoot.SelectBucket` | loot-simulator/Game.cpp:105-114 | The `tableIndex` loop stops exactly where the roulette walk over the buckets stops. |
| `MonsterLoot.SelectedBucketInRange` | loot-simulator/Game.cpp:103-114 | A draw in [0, 1) never walks past the remainder bucket, whatever the rates. |
| `MonsterLoot.ExclusiveSelection` | loot-simulator/Game.cpp:103-118 | With non-negative rates, exclusive table j is chosen exactly when the draw lies in [Σ rates before j, Σ rates through j). |
| `MonsterLoot.RemainderSelection` | loot-simulator/Game.cpp:103-125 | The unconditional branch is taken exactly when the draw is at least the sum of the exclusive rates. |
| `MonsterLoot.RollEach` | loot-simulator/Game.cpp:125-128 | Rolling each unconditional table once gives one drop per table. |
| `MonsterLoot.RollEachSnoc` | loot-simulator/Game.cpp:125-128 | One more loop iteration appends exactly that table's roll. |
| `MonsterLoot.LootShape` | loot-simulator/Game.cpp:105-128 | An exclusive pick gives exactly one drop, taken from that exclusive table. Otherwise there are `tables.size() − numExclusive` drops, one per unconditional table in order, each from its own table. |
| `MonsterLoot.LootByDraw` | loot-simulator/Game.cpp:103-128 | The branch read off the draw itself. A draw in exclusive table j's slice gives that table's roll alone. A draw at or above the exclusive sum rolls every unconditional table. |
| `MonsterLoot.LootSaturatedExclusives` | loot-simulator/Game.cpp:93-122 | Exclusive rates summing to 1 or more always give exactly one drop, from an exclusive table. |
| `MonsterLoot.LootAllUnconditional` | loot-simulator/Game.cpp:118-128 | With no exclusive table, n tables give n drops: the i-th is table i's roll. |
| `MonsterLoot.LootNoTables` | loot-simulator/Game.cpp:78-128 | A monster without tables drops nothing. |
| `MonsterLoot.Monster.constructor` | loot-simulator/Game.cpp:298-307 | The copy of a template has its name, type and tables, in a fresh array, and no drops. |
| `MonsterLoot.Monster.RerollLoot` | loot-simulator/Game.cpp:78-129 | Previous drops are discarded. The tables become a partition of the old ones with the same exclusive count. The new drops are `LootFor` over the partitioned tables. |
| `GameSession.TallyDropsCounts` | loot-simulator/Game.cpp:256-263 | Tallying drops adds, per treasure type, the number of drops of that type. A type becomes a key exactly when it already was one or it drops. |
| `GameSession.SumValuesBump` | loot-simulator/Game.cpp:252 | Incrementing one count through `operator[]` raises the sum of the counts by one. |
| `GameSession.TallyMonsters` | loot-simulator/Game.cpp:252-264 | `monsters` holds exactly the types slain at least once, and both maps have exactly those keys. |
| `GameSession.TallyCounts` | loot-simulator/Game.cpp:243-265 | Each `monsterCounts[t]` is the number of kills of type t, and the counts sum to the number of kills. |
| `GameSession.TallyLoot` | loot-simulator/Game.cpp:243-265 | `lootMap[t][tr]` is the number of drops of treasure type tr from kills of monster type t. tr is a key exactly when that number is positive. |
| `GameSession.TallyLootAbsent` | loot-simulator/Game.cpp:256-263 | A monster type without a loot entry never dropped anything. |
| `GameSession.TallyLoop` | loot-simulator/Game.cpp:256-261 | The `treasures[treasure.type]++` loop produces exactly `TallyDrops`. |
| `GameSession.RecordLoot` | loot-simulator/Game.cpp:252-264 | Recording one kill in place gives exactly `RecordKill` of the session. |
| `GameSession.KillOnce` | loot-simulator/Game.cpp:253 | One reroll records the monster's type and its new drops. The drops are a reroll of the template under some partition, and the monster's tables remain a permutation of the template's. |
| `GameSession.RerollOfTemplate` | loot-simulator/Game.cpp:84-90 | Across repeated rerolls of one monster, the tables stay a permutation of the template's. Each roll is therefore a reroll of the template itself. |
| `GameSession.Game.constructor` | loot-simulator/Game.cpp:136-139 | A new game has no monster data, is not loaded, and has no dropped loot. |
| `GameSession.Game.LoadData` | loot-simulator/Game.cpp:141-177 | A file that does not open returns false and changes nothing. Otherwise the first monster of each type is inserted into the registry, the game is loaded, and true is returned. |
| `GameSession.InsertAllKeeps` | loot-simulator/Game.cpp:157-160 | Registry insertion keeps existing entries. A new type is present exactly when some record has it, and then holds the first such record. Registered monsters keep their own type as key. |
| `GameSession.FirstOfKindHasKind` | loot-simulator/Game.cpp:157-160 | The record kept for a type is a record of that type. |
| `GameSession.Game.CreateMonsterForType` | loot-simulator/Game.cpp:298-307 | A known type gives a fresh copy of its registered monster with no drops. |
| `GameSession.Game.SlayMonster` | loot-simulator/Game.cpp:179-220 | The dropped-loot map is always cleared. Nothing happens before loading. Otherwise one monster of the chosen type is rerolled, and a one-kill session is notified only when something dropped. |
| `GameSession.Game.SlayBatchOfMonsters` | loot-simulator/Game.cpp:222-268 | Before loading nothing changes. After loading, `count` kills are made, the i-th of the requested type or of the i-th random pick, each a reroll of its template. Their tally is always notified. |
| `GameController.LeadingWord` | loot-simulator/GameController.cpp:143-148 | The word `operator>>` reads is the maximal whitespace-free prefix; it is non-empty when the input does not start with whitespace. |
| `GameController.Tokenize` | loot-simulator/GameController.cpp:143-148 | `TokenizeString` yields only non-empty, whitespace-free tokens, never more tokens than characters. |
| `GameController.TokenizeKeepsText` | loot-simulator/GameController.cpp:143-148 | Concatenating the tokens in order gives the input with its whitespace removed. |
| `GameController.TokenizeJoinWords` | loot-simulator/GameController.cpp:143-148 | Tokenizing words joined by single spaces gives back exactly those words. |
| `GameController.DigitsValue` | loot-simulator/GameController.cpp:171 | The value `std::stoi` reads from a string of k digits is below 10^k. |
| `GameController.Prefix` | loot-simulator/GameController.cpp:171 | `substr(0, 5)` is the first five characters, or the whole token when it is shorter. |
| `GameController.PrefixValue` | loot-simulator/GameController.cpp:171-181 | The value parsed from a digit token's first five characters is at most 99999. |
| `GameController.OptionSelectionRange` | loot-simulator/GameController.cpp:90 | For n monsters, `Initialize` sets the selection range [1, n+2]: one selection per monster type, plus one for each other category. |
| `GameController.IsValidInput` | loot-simulator/GameController.cpp:150-186 | Input is valid exactly when it has one or two tokens, all digits, and the first token's five-character value lies in the range. The count check never rejects anything. |
| `GameController.RejectsTokenCount` | loot-simulator/GameController.cpp:153-156 | No tokens, or more than two, is never valid. |
| `GameController.RejectsNonDigit` | loot-simulator/GameController.cpp:159-167 | Any character outside 0–9 in any token (a sign, a point, a letter) makes the input invalid. |
| `GameController.CountCheckAlwaysPasses` | loot-simulator/GameController.cpp:176-182 | For any all-digit second token, the count range check [0, 99999] passes. |
| `GameController.ValidInputExamples` | loot-simulator/GameController.cpp:150-186 | For four monsters, "3 10" and "6" are valid and "-1", "1.5", "+3", "0" and "7" are not. |
| `GameController.OptionCategoryForSelection` | loot-simulator/GameController.cpp:194-203 | For any selection, the category is SLAY_MONSTER exactly when s ≤ n, SLAY_RANDOM exactly when s = n+1, QUIT exactly when s = n+2, and a real category (below NUM_OPTION_CATEGORIES) exactly when s ≤ n+2. |
| `GameController.Dispatch` | loot-simulator/GameController.cpp:55-79 | For any selection: it quits exactly at s = n+2, and slays random monsters exactly at s = n+1. Any other selection slays type s − 1. A count of exactly 1 takes the single-kill path, and any other count goes to the batch path unchanged. |
| `GameController.DispatchOfSelection` | loot-simulator/GameController.cpp:55-79 | Within the valid range [1, n+2], a move names a monster type exactly for s ≤ n, and that type lies in [0, n). |
| `GameController.MoveSelection` | loot-simulator/GameController.cpp:136-140 | When only one token is present the count defaults to 1. |
| `GameController.WholeTokenDivergence` | loot-simulator/GameController.cpp:136-140 | For four monsters, the token `000017` validates through its five-character prefix as selection 1, yet is dispatched as selection 17, which slays the unknown type 16. |
| `GameController.ValidMoveDispatch` | loot-simulator/GameController.cpp:136-140 | A valid move of tokens of at most five characters yields a selection in [1, n+2] and a count in [0, 99999], and names only monster types in [0, n). |
| `EnumBindings.ToUpper` | tools/scripts/generate_enum_bindings.py:35 | Upper-casing maps lowercase ASCII letters to uppercase and leaves every other character alone. |
| `EnumBindings.IdToEnum` | tools/scripts/generate_enum_bindings.py:30-36 | The string-building loop computes exactly `EnumIdOf`: upper-case every character and put `_` before each one that was uppercase. |
| `EnumBindings.EnumIdOfAppend` | tools/scripts/generate_enum_bindings.py:30-36 | The conversion works character by character, so it distributes over concatenation. |
| `EnumBindings.EnumIdLength` | tools/scripts/generate_enum_bindings.py:31-35 | The result's length is the id's length plus its number of uppercase characters. |
| `EnumBindings.EnumIdHasNoLower` | tools/scripts/generate_enum_bindings.py:30-36 | The result has no lowercase letter. |
| `EnumBindings.EnumIdWithoutUpper` | tools/scripts/generate_enum_bindings.py:26-36 | An id with no uppercase character maps to its plain upper-casing, e.g. `none` → `NONE`. |
| `EnumBindings.EnumIdRoundTrip` | tools/scripts/generate_enum_bindings.py:30-36 | For an id without underscores, converting back (`_X` is read back as `X` and every other character is lower-cased) recovers the id, so the conversion loses nothing. |
| `EnumBindings.EnumIdInjective` | tools/scripts/generate_enum_bindings.py:30-36 | Two ids without underscores that have the same enum name are equal. |
| `EnumBindings.EnumIdCollision` | tools/scripts/generate_enum_bindings.py:30-36 | With `_` allowed, `a_b` and `aB` both give `A_B`. |
| `EnumBindings.CapitalizedPiece` | tools/scripts/generate_enum_bindings.py:33-35 | A capitalized word becomes `_` followed by that word upper-cased. |
| `EnumBindings.IdEnumMap.constructor` | tools/scripts/generate_enum_bindings.py:26-27 | The dictionary is seeded with `'none': 'NONE'`. |
| `EnumBindings.IdEnumMap.Blank` | tools/scripts/generate_enum_bindings.py:45-59 | Setting `d[type_id] = ""` appends a new key at the end and leaves an existing key in place. |
| `EnumBindings.IdEnumMap.RecomputeAll` | tools/scripts/generate_enum_bindings.py:47-62 | Afterwards every value is `id_to_enum` of its key, and the keys are unchanged. On an already converted dictionary nothing changes, so the step is idempotent. |
| `EnumBindings.IdEnumMap.AddIdsAndRecompute` | tools/scripts/generate_enum_bindings.py:44-48 | For one file's ids, the key order gains the new ids in first-seen order, and every value equals `id_to_enum(key)`. |
| `EnumBindings.IdEnumMap.InitMonsterEnums` | tools/scripts/generate_enum_bindings.py:39-48 | The key order gains the new type ids in first-seen order, and every value equals `id_to_enum(key)`. |
| `EnumBindings.IdEnumMap.InitItemEnums` | tools/scripts/generate_enum_bindings.py:51-62 | The keys gain every file's ids in order. After at least one file every value is converted; with no file, nothing changes. |
| `EnumBindings.IdEnumMap.Items` | tools/scripts/generate_enum_bindings.py:93 | `items()` yields each key with its value in insertion order. For a converted dictionary each entry is (key, `id_to_enum(key)`). |
| `EnumBindings.AddKeysFacts` | tools/scripts/generate_enum_bindings.py:45-59 | Adding ids only appends. The old key order is a prefix of the new one, the keys are the old ones plus the new ids, and no key repeats. |
| `EnumBindings.AddKeysAppend` | tools/scripts/generate_enum_bindings.py:53-59 | Adding the ids of several files in turn is adding their concatenation. |
| `EnumBindings.AddKeysPresent` | tools/scripts/generate_enum_bindings.py:45-59 | Type ids already present add no entries. |
| `EnumBindings.AddKeysTwice` | tools/scripts/generate_enum_bindings.py:43-45 | Adding the same ids twice gives the same key order as adding them once. |
| `EnumBindings.NoneStaysFirst` | tools/scripts/generate_enum_bindings.py:26-27 | `none` stays the first key, whatever ids are added. |
| `EnumBindings.EnumerateIdsAsEnum` | tools/scripts/generate_enum_bindings.py:91-103 | The loop emits the entries' lines in map order, `= -1` on the first, `= 0` on the second and no initializer on the rest, each ending `,\n`. A `NUM_TYPES` line closes the body. |
| `EnumBindings.EnumBodyLineCount` | tools/scripts/generate_enum_bindings.py:91-103 | For single-line names the body has exactly one line per entry plus the closing line. |
| `EnumBindings.GetEnumBindings` | tools/scripts/generate_enum_bindings.py:124-131 | The loop emits exactly the entries' `{ Type::VALUE, "key" },` lines, in insertion order. |
| `EnumBindings.BindingsLineCount` | tools/scripts/generate_enum_bindings.py:124-131 | For single-line names and keys there is exactly one line per entry. |
| `EnumBindings.BindingLineText` | tools/scripts/generate_enum_bindings.py:127-129 | A binding line is eight spaces, `{ Type::VALUE, "key" },` and a newline. |
| `EnumBindings.BindingMacroShape` | tools/scripts/generate_enum_bindings.py:134-142 | The macro opens with `NLOHMANN_JSON_SERIALIZE_ENUM(Type,` and an indented brace, and holds the bindings unchanged. It closes with `});`. |
| `EnumBindings.LowercaseIds` | loot-simulator/generated/EnumDataBindings.h:16-24 | The monster ids convert to `NONE`, `GOBLIN`, `SKELETON`, `DRAGON`, `ZOMBIE`. |
| `EnumBindings.RegenerationRingId` | loot-simulator/generated/EnumDataBindings.h:57 | `regenerationRing` converts to `REGENERATION_RING`. |
| `EnumBindings.AmuletOfDestructionId` | loot-simulator/generated/EnumDataBindings.h:69 | `amuletOfDestruction` converts to `AMULET_OF_DESTRUCTION`. |
| `EnumBindings.MonsterItemsWitness` | loot-simulator/generated/EnumDataBindings.h:45-52 | Seeding with `none` and adding the four monster ids gives the header's five entries in its order. |
| `EnumBindings.MonsterEnumWitness` | loot-simulator/generated/EnumDataBindings.h:18-23 | The five monster enum lines and the closing line are exactly the header's text. |
| `EnumBindings.MonsterBindingsWitness` | loot-simulator/generated/EnumDataBindings.h:45-52 | The MonsterType bindings are five lines, one per header entry, from `none` to `zombie` in order. |
| `EnumBindings.SkeletonBindingWitness` | loot-simulator/generated/EnumDataBindings.h:49 | The skeleton binding line is exactly the header's text. |

## Left out

- Randomness: `std::random_device`, `mt19937` and the uniform distributions are replaced by injected variates. `CreateRandomMonster`'s draw becomes the `pick` / `picks` parameters, each required to name a registered type.
- Floating point: weights and draws are `real`. `float` rounding, for example a rate of 0.1 that does not add to exactly 1, is not modelled.
- `operator<` on `Treasure` and `Monster` compares the type only. It is modelled by keying the registry by monster type, not as a separate ordering.
- `IsExclusive`: uses exact real inequality `!= 1.0`, as the source compares floats exactly.
- `GameSession.Game.LoadData`: the JSON parse and file stream are replaced by an optional list of parsed records. `numMonsterTypes` is read and unused. The treasure registry `m_treasureData` that LoadData fills is not modelled, because only name lookups read it.
- `GetMonsterName` and `GetTreasureName`: name lookups used only for display. Like `CreateMonsterForType`, they dereference `end()` on an unknown type.
- Events: the loading-complete event is left out. The loot-dropped notification is the `notified` result.
- `m_droppedLootMap` is only ever cleared. It is a field that `SlayBatchOfMonsters` clears after its loaded check and `SlayMonster` clears before it.
- `GameSession.Game.SlayMonster`: the source binds a `Monster&` to a temporary. The model uses a fresh monster; the lifetime issue is not modelled.
- `GameSession.Game.SlayMonster`: the source bumps `monsterCounts` before the roll and the model after it. The session is only observable after both.
- `GameSession.Game.SlayBatchOfMonsters`: requires a non-negative count. With a negative count, `while (remaining--)` would run until it overflows.
- Integer overflow: 32-bit overflow of the tallies is not modelled. Counts are unbounded integers.
- `GameController.IsValidInput`: requires non-empty tokens. `std::stoi("")` would throw, and `TokenizeString` never yields an empty token.
- `GameController.DispatchOfSelection`: it proves only that type s − 1 lies in [0, n). Mapping a selection to a type assumes the registry holds exactly the types 0..n−1, and the controller's n is not tied to the keys of `Game.monsterData`. When the loaded types have gaps (say only types 1 and 2, so n = 2), selection 1 names type 0, which is not registered, and `CreateMonsterForType` would dereference `end()`.
- `GameController.MoveSelection`: `GetMoveInput` parses the WHOLE token with `std::stoi`, while validation parsed only its first five characters. A token such as `000017` is validated as 1 but dispatched as 17 (`WholeTokenDivergence`). The model proves the dispatch bounds only for tokens of at most five characters (`ValidMoveDispatch`); beyond that one witness it proves nothing general about longer tokens. A whole token whose value exceeds INT_MAX makes `std::stoi` throw `std::out_of_range`, which nothing catches, so the program terminates. That path is not modelled. It is reachable after validation: in `1 000009999999999` the count's five-character prefix is 0, so the input validates, and `MoveSelection` then returns (1, 9999999999) where the program would end.
- The `Run` and `GetMoveInput` loops, `WaitForInput`, and all of `GameView`: console I/O. Only the dispatch decision of one move is modelled.
- `GameController.IsSpace`: whitespace is the C-locale `isspace` set. Locales are not modelled.
- `EnumBindings.IsUpper` / `EnumBindings.ToUpper`: ASCII only. Python's Unicode-aware `isupper` and `upper` on other characters are not modelled.
- Script I/O: `open`, `glob.iglob`, `json.load`, `write_code_to_header`, `clear_file(s)` and `initialize_dirs`. The ids read from the files are inputs; the file order is the order `glob` yields.
- `cpp_util` is not part of this model. The indentation is taken as four spaces per level, as the generated header shows and `Indentation` states. `get_enum_string`, `get_monster_enum_string` and `build_code_string` are not modelled, because they only concatenate further `cpp_util` strings (signatures, scopes, comments, guards).
