# Verification of the otari migrations and build tools

This project models, in Dafny, the parts of otari that change stored meaning in one pass or work over graphs and
text: the data migrations that promise to keep what every workspace, tool and price resolves to, the hourly usage
rollups, the exact JSON encoder of prices, and the checks and generators under `scripts/` and `loadtest/`. Loops that
update tables are methods over classes or over values they reassign, each proved against functions and predicates over
the tables; what the system promises is then proved about those for all inputs, all runs and all reachable states.

`dafny verify dfyconfig.toml` checks everything.

## What is modelled

- **Web search keys** (`WebSearchKeys`, `KeyOrderMigration`, `KeyKindMigration`, `KeyMigrations`): the three rules, over
  time, for which key a workspace searches with, and the two migrations between them. Tables are maps; a workspace's
  choice before equals its choice after, for every organization, kind and workspace.
- **Selector names and rates** (`ProviderSlugs`, `ProviderRates`, `ProviderPrices`, `ProviderRatesBack`): the names
  organization keys get, the rates copied to them, what a key pays before and after, and the way back.
- **Aliases and policies** (`AliasPolicies`): rows moved between two tables in both directions.
- **Tool prices** (`ToolPrices`): a price of its own for each search and fetch tool.
- **Usage rollups** (`Totals`, `UsageRollups`, `UsageMeasures`, `UsageReads`, `UsageTables`): a state machine of writers,
  a refresh whose transaction stays open across other steps, and reads; its invariant, and what a read adds up to.
- **Prices as JSON** (`Decimals`, `Spelling`, `Json`, `JsonRoundTrip`, `JsonText`, `PriceBlocks`, `PriceReading`,
  `PublishedPrices`): decimal arithmetic with 28 significant digits, the encoder, a parser of JSON (sections 6 and 7 of
  RFC 8259), the cost block of a row, and where a row's prices are in it.
- **Name resolution and rules of the architecture checker** (`Reexports`, `ReexportLoop`, `LayerRules`,
  `ModelAccess`).
- **Documentation site** (`MenuPaths`, `MenuSpaces`, `LinkRewriting`), **Homebrew formula** (`LockClosure`) and
  **load-test verdicts** (`LoadVerdicts`).

## Where the code does less than it says

The model follows the code. Where a promise of a docstring or comment does not hold of it for all inputs, the exact
condition under which it holds is proved, with an input that shows the failure.

- Dropping to one default moves a workspace to another key when it holds a pin on a key it also turned off
  (`KeyKindMigration.ChoiceKept`, `KeyKindMigration.MaskedWorkspaceChangesKey`). Only a row no current write path makes
  can hold both: `src/gateway/services/tools/_web_search_keys.py:441-456` refuses the pair or clears one of the two.
- A selector name steps around taken names once, before `-custom` and `-2`, `-3` and so on are added, so a name handed
  out can be a stored instance's (`ProviderSlugs.ClearOfTheTaken`, `ProviderSlugs.StoredInstanceIsShadowed`).
- The column holds 64 characters, and a name of 56 that steps aside and is taken a second time has 65
  (`ProviderSlugs.NamesFit`, `ProviderSlugs.NameThatStepsAsideFits`, `ProviderSlugs.LongNameOverflows`).
- Copying rates violates the unique index on a period's start when both spellings of a model, or a spelling and the new
  name, have a period starting together (`ProviderRates.StartsStayUnique`, `ProviderRates.BothSpellingsCollide`).
- Both spellings' rates are copied under one, the current one, where the current one alone was read if it had any
  (`src/gateway/services/pricing_service.py:397-433`): a key pays another rate under its
  name than its provider did when a period of the older spelling started later (`ProviderPrices.PaysAsBefore`,
  `ProviderPrices.OlderSpellingComesForward`).
- Moving aliases into policies keeps each exact name and scope, but a caller sees several scopes at once (in the order
  of `src/gateway/services/alias_service.py:121-162` and `src/gateway/services/policy_store.py:152-187`, aliases before
  policies as in `src/gateway/services/provider_kwargs.py:912-929`), and a caller's own policy that everyone's alias
  used to hide comes forward (`AliasPolicies.CallerServedAlike`, `AliasPolicies.HiddenPolicyComesForward`); the
  downgrade has the mirror case (`AliasPolicies.DowngradeServesAlike`, `AliasPolicies.OwnPolicyOvertakes`).
- A stored fetch tool that took the name `builtin_fetch` shares the built-in fetcher's price row. A tool keeps its price
  exactly when no other of its name is written at a different one (`ToolPrices.EveryToolKeepsItsPrice`): the stored
  tool can go from 7 to 0, and the built-in fetcher, which is the one that runs
  (`src/gateway/core/settings/tools.py:700-712`), from 5 to 9 (`ToolPrices.NamesakeIsRepriced`,
  `ToolPrices.BuiltinIsRepriced`). Where both would be written the primary key refuses the migration
  (`ToolPrices.PriceList.Upgrade`, `ToolPrices.NamesakesClash`). The name is reserved for every current write path
  (`src/gateway/core/settings/tools.py:64`, `:169`), so only an older row can hold it.
- The set of seen paths does not bound the loop that follows re-exports: `from .name import name` in a package makes it
  run for ever. It ends exactly when no path outgrows a bound that can be computed beforehand
  (`ReexportLoop.StopsWithinBound`, `Reexports.SubmoduleOfItsOwnNameNeverStops`,
  `ReexportLoop.ImportsInACircleNeverStop`, `ReexportLoop.TwoImportsNeverStop`).
- A read asks which hours are marked and then queries; when the revision that drops every rollup commits in between, the
  hours it then takes from the rollups are missing, unless refreshed since (`UsageReads.HourIsLost`,
  `UsageReads.DroppedHourIsLost`).
- A decimal of more than 28 significant digits is rounded by the encoder (`JsonRoundTrip.RoundTrip`,
  `JsonRoundTrip.LongDecimalIsRounded`).
- More turns of the base build do not only blur a verdict: one faster than all before lowers the threshold
  (`LoadVerdicts.OneMoreBaseTurn`, `LoadVerdicts.AFastBaseTurnMakesARegression`).
- Load that spares a turn of each build can still separate them, exactly when some turn already stood out on its own
  (`LoadVerdicts.SlowingOnlyBlurs`, `LoadVerdicts.OneSlowedTurnMakesARegression`).

## Model

| member | source | states |
|---|---|---|
| `WebSearchKeys.Tables.SelectInOrder` | alembic/versions/90b7e153c41f_star_org_web_search_keys_workspaces_use.py:55-64 | the rows asked for, each once, oldest first, or by provider rank first |
| `WebSearchKeys.Tables.OverridesByWorkspace` | alembic/versions/90b7e153c41f_star_org_web_search_keys_workspaces_use.py:112-114 | exactly the overrides of the given keys, grouped by workspace |
| `KeyOrderMigration.KeysByOrganizationAndKind` | alembic/versions/90b7e153c41f_star_org_web_search_keys_workspaces_use.py:55-64 | every key in exactly one group, the one of its organization and kind, oldest first |
| `KeyOrderMigration.Pin` | alembic/versions/90b7e153c41f_star_org_web_search_keys_workspaces_use.py:67-99 | the key becomes the workspace's one pin among its kind, on an old row or a new one; every other row as it was |
| `KeyOrderMigration.KeepTheWorkspacesKeys` | alembic/versions/90b7e153c41f_star_org_web_search_keys_workspaces_use.py:102-122 | one group's keys and overrides are migrated, every other group's untouched |
| `KeyOrderMigration.Upgrade` | alembic/versions/90b7e153c41f_star_org_web_search_keys_workspaces_use.py:125-128 | both tables are what migrating every group at once makes of them, whatever order the loops take; live keys without a default get the oldest as theirs, and a pin made is on the oldest key left on |
| `KeyOrderMigration.ChoiceKept` | alembic/versions/90b7e153c41f_star_org_web_search_keys_workspaces_use.py:67-128 | for every organization, kind and workspace, pin else kept-on default else none picks after what pin else default else oldest picked before |
| `KeyOrderMigration.DefaultsAfter` | alembic/versions/90b7e153c41f_star_org_web_search_keys_workspaces_use.py:104-110 | a group with a live key ends with exactly one default, the one it had if it had one |
| `KeyOrderMigration.TheDefaultAfter` | alembic/versions/90b7e153c41f_star_org_web_search_keys_workspaces_use.py:104-110 | defaults stay where there are any; otherwise exactly the live key made first, by time and then id, becomes one |
| `KeyOrderMigration.PinsAfter` | alembic/versions/90b7e153c41f_star_org_web_search_keys_workspaces_use.py:67-122 | a workspace that gains a pin keeps that key on and has no other pin of the kind |
| `KeyOrderMigration.ThePinMade` | alembic/versions/90b7e153c41f_star_org_web_search_keys_workspaces_use.py:111-122 | a pin the migration makes is on the live key made first of those the workspace left on |
| `KeyOrderMigration.SchemaKept` | alembic/versions/90b7e153c41f_star_org_web_search_keys_workspaces_use.py:67-128 | one default per organization and kind, and overrides of known keys only, still hold |
| `KeyOrderMigration.SecondUpgradeAddsNothing` | alembic/versions/90b7e153c41f_star_org_web_search_keys_workspaces_use.py:102-128 | migrating what was migrated changes nothing |
| `KeyKindMigration.PinTheNextDefault` | alembic/versions/dbd76ac9d948_add_kinds_to_org_web_search_keys.py:128-166 | a workspace with the first default off and no live pin is pinned to the next default that is on for it; nobody else's rows change |
| `KeyKindMigration.KeepOneDefault` | alembic/versions/dbd76ac9d948_add_kinds_to_org_web_search_keys.py:116-125 | one organization ends with its first default in rank order, its workspaces pinned as above |
| `KeyKindMigration.KeepOneDefaultPerOrganization` | alembic/versions/dbd76ac9d948_add_kinds_to_org_web_search_keys.py:107-125 | the same for every organization at once, whatever order the loop takes; of several defaults a tavily one stays if there is one, else a brave one, and of those the oldest, and pins are made in the same order |
| `KeyKindMigration.ChoiceKept` | alembic/versions/dbd76ac9d948_add_kinds_to_org_web_search_keys.py:107-166 | a workspace keeps its key exactly when no pin it holds on a key it turned off masks another default it searched with |
| `KeyKindMigration.NoMaskWithoutAPinTurnedOff` | alembic/versions/dbd76ac9d948_add_kinds_to_org_web_search_keys.py:128-166 | without an override both pinned and turned off every workspace keeps its key |
| `KeyKindMigration.MaskedWorkspaceChangesKey` | alembic/versions/dbd76ac9d948_add_kinds_to_org_web_search_keys.py:128-166 | tables in which a workspace changes key, whatever tables the migration leaves |
| `KeyKindMigration.OneDefaultAfter` | alembic/versions/dbd76ac9d948_add_kinds_to_org_web_search_keys.py:107-125 | one live default per organization and kind, so the new unique index can be built |
| `KeyKindMigration.DefaultsAfter` | alembic/versions/dbd76ac9d948_add_kinds_to_org_web_search_keys.py:118-125 | the default left is the first in rank order |
| `KeyKindMigration.TheDefaultLeft` | alembic/versions/dbd76ac9d948_add_kinds_to_org_web_search_keys.py:50-50 | of several live defaults exactly one is left: tavily before brave before all others, then the oldest, then the least id |
| `KeyKindMigration.ThePinMade` | alembic/versions/dbd76ac9d948_add_kinds_to_org_web_search_keys.py:128-166 | a pin the migration makes is on the first, in that order, of the defaults the workspace left on |
| `KeyKindMigration.PinsAfter` | alembic/versions/dbd76ac9d948_add_kinds_to_org_web_search_keys.py:128-166 | no key is turned on or off, and a stranded workspace ends with one pin, on a key it kept on |
| `KeyMigrations.ChoiceKeptByBoth` | alembic/versions/dbd76ac9d948_add_kinds_to_org_web_search_keys.py:107-166 | both migrations in a row keep every unmasked workspace on the key it used under the oldest rule |
| `KeyMigrations.Downgrade` | alembic/versions/dbd76ac9d948_add_kinds_to_org_web_search_keys.py:198-216 | exactly the rows the previous schema cannot hold are gone, with the overrides that name them: every search key with a secret stays |
| `KeyMigrations.DowngradeFits` | alembic/versions/dbd76ac9d948_add_kinds_to_org_web_search_keys.py:198-216 | of what is left every key is a search key with a secret, and two keys of a provider differ in name and are not both live defaults; overrides still name keys |
| `ProviderSlugs.Slug` | alembic/versions/b3e7d1a9c5f2_add_org_provider_key_slug.py:44-52 | the probe ends within one more candidate than names used, at the first of the name, the name with `-2`, with `-3` and so on that nobody has; the name is the safe form of the key's own, with `-custom` where that is taken |
| `ProviderSlugs.BaseIsOf` | alembic/versions/b3e7d1a9c5f2_add_org_provider_key_slug.py:45-45 | the safe form: pieces of allowed characters unchanged and in order, one dash for each run of others between them, no separators around, cut to 56 characters; the provider exactly where no letter or digit is left |
| `ProviderSlugs.KeyTable.NameKeys` | alembic/versions/b3e7d1a9c5f2_add_org_provider_key_slug.py:80-92 | each key with an endpoint gets that name given those before it in its organization and is no default; every other key is as it was |
| `ProviderSlugs.NamesAreDistinct` | alembic/versions/b3e7d1a9c5f2_add_org_provider_key_slug.py:85-92 | no two keys of one organization share a name |
| `ProviderSlugs.CandidatesFit` | alembic/versions/b3e7d1a9c5f2_add_org_provider_key_slug.py:48-50 | candidates are all different, so no more of them are used than there are names |
| `ProviderSlugs.SlugIsPlain` | alembic/versions/b3e7d1a9c5f2_add_org_provider_key_slug.py:45-50 | whatever the key is called, its selector name holds no separator |
| `ProviderSlugs.ClearOfTheTaken` | alembic/versions/b3e7d1a9c5f2_add_org_provider_key_slug.py:46-50 | names never collide with taken ones exactly when no candidate after the one comparison is taken |
| `ProviderSlugs.StoredInstanceIsShadowed` | alembic/versions/b3e7d1a9c5f2_add_org_provider_key_slug.py:46-50 | any safe name that is taken and whose stepped-aside form is stored too gets that instance's name |
| `ProviderSlugs.NamesFit` | alembic/versions/b3e7d1a9c5f2_add_org_provider_key_slug.py:45-52 | with at most so many names in use every name fits the column of 64 characters exactly when the candidate after them does |
| `ProviderSlugs.NameOfItsOwnFits` | alembic/versions/b3e7d1a9c5f2_add_org_provider_key_slug.py:45-52 | a name that does not step aside fits for the first 9,999,999 keys |
| `ProviderSlugs.NameThatStepsAsideFits` | alembic/versions/b3e7d1a9c5f2_add_org_provider_key_slug.py:45-52 | one that does fits the first time, and the second time exactly when it has fewer than 56 characters |
| `ProviderSlugs.LongNameOverflows` | alembic/versions/b3e7d1a9c5f2_add_org_provider_key_slug.py:45-52 | two keys of one name, the second of which gets 65 characters |
| `ProviderSlugs.NamedKeyFits` | alembic/versions/b3e7d1a9c5f2_add_org_provider_key_slug.py:71-91 | the name a key is given in the loop fits when the last candidate it could be pushed to does |
| `ProviderRates.CollectTargets` | alembic/versions/b3e7d1a9c5f2_add_org_provider_key_slug.py:94-98 | each organization, provider and model with the names of the keys that offer it, oldest first |
| `ProviderRates.CollectBare` | alembic/versions/b3e7d1a9c5f2_add_org_provider_key_slug.py:100-110 | a model is still served exactly when a live bare key offers it or offers nothing |
| `ProviderRates.RateTable.CopyRates` | alembic/versions/b3e7d1a9c5f2_add_org_provider_key_slug.py:116-120 | every matching rate, under either spelling, copied once to every name |
| `ProviderRates.RateTable.Move` | alembic/versions/b3e7d1a9c5f2_add_org_provider_key_slug.py:112-122 | every target has one turn, in some order; where names can be told apart, the number of each rate afterwards in terms of the table before the first turn alone |
| `ProviderRates.TurnsSettle` | alembic/versions/b3e7d1a9c5f2_add_org_provider_key_slug.py:112-122 | where names can be told apart the outcome is the same in every order of the targets |
| `ProviderRates.TurnReadsTheOriginal` | alembic/versions/b3e7d1a9c5f2_add_org_provider_key_slug.py:112-122 | no row written or deleted in one iteration is read in a later one |
| `ProviderRates.KeyHasItsRates` | alembic/versions/b3e7d1a9c5f2_add_org_provider_key_slug.py:112-120 | as `slug:model` a key has, for a model it offers, exactly the rates its provider had as `provider:model` and `provider/model`, besides its own, and none for a model it does not offer |
| `ProviderRates.ProviderKeepsItsRates` | alembic/versions/b3e7d1a9c5f2_add_org_provider_key_slug.py:121-122 | a provider's rate is gone exactly when a named key took it and no live bare key serves the model |
| `ProviderRates.OtherRatesAreUntouched` | alembic/versions/b3e7d1a9c5f2_add_org_provider_key_slug.py:112-122 | every other rate is as it was |
| `ProviderRates.StartsStayUnique` | alembic/versions/b3e7d1a9c5f2_add_org_provider_key_slug.py:112-122 | the index on a period's start holds afterwards exactly when no two rates that end up under one name start together |
| `ProviderRates.BothSpellingsCollide` | alembic/versions/b3e7d1a9c5f2_add_org_provider_key_slug.py:112-120 | keys and rates no outcome of which fits the index |
| `ProviderRates.NamedKeysAreWellNamed` | alembic/versions/b3e7d1a9c5f2_add_org_provider_key_slug.py:85-92 | names can be told apart exactly when none handed out is a provider of its organization, which holds when none tried is |
| `ProviderPrices.PaidIs` | src/gateway/services/pricing_service.py:397-433 | what is paid is the latest period in force as `name:model`, or as `name/model` where none is in force as that |
| `ProviderPrices.PaysAsBefore` | alembic/versions/b3e7d1a9c5f2_add_org_provider_key_slug.py:94-122 | under its name a key pays what its provider paid exactly when no period of the older spelling, or of the name's own, started after that one; where the provider paid nothing, when the name had no rate |
| `ProviderPrices.OlderSpellingComesForward` | alembic/versions/b3e7d1a9c5f2_add_org_provider_key_slug.py:112-120 | rates the index accepts with which a key is charged another period |
| `ProviderRatesBack.Downgrade` | alembic/versions/b3e7d1a9c5f2_add_org_provider_key_slug.py:143-166 | the loops compute the recursive definition of one key's turn after another |
| `ProviderRatesBack.ProviderAfterDowngrade` | alembic/versions/b3e7d1a9c5f2_add_org_provider_key_slug.py:150-166 | a priced model keeps exactly its rates; an unpriced one gets exactly one back, the first of the first key that has any |
| `ProviderRatesBack.NothingUnderAnyName` | alembic/versions/b3e7d1a9c5f2_add_org_provider_key_slug.py:150-166 | no rate is left under any key's name |
| `ProviderRatesBack.OthersAfterDowngrade` | alembic/versions/b3e7d1a9c5f2_add_org_provider_key_slug.py:150-166 | a rate under no key's name and not under a named key's provider's current spelling is as it was |
| `ProviderRatesBack.ThereAndBack` | alembic/versions/b3e7d1a9c5f2_add_org_provider_key_slug.py:94-166 | the number of each rate of a target after both directions, under either spelling; a model priced under either is priced again under the current spelling |
| `AliasPolicies.Stores.Upgrade` | alembic/versions/b5d7f9a1c3e6_move_stored_aliases_into_routing_policies.py:52-98 | refuses exactly on a name and scope met twice; otherwise every alias is one new policy that sends its name, in its scope and with its times, to its target and says nothing else, and no alias is left |
| `AliasPolicies.Stores.Downgrade` | alembic/versions/b5d7f9a1c3e6_move_stored_aliases_into_routing_policies.py:101-165 | refuses exactly on a clash of the policies an alias can represent; otherwise exactly those that say what some alias says are that alias again |
| `AliasPolicies.PoliciesStayUnique` | alembic/versions/b5d7f9a1c3e6_move_stored_aliases_into_routing_policies.py:61-96 | one policy per name and scope afterwards |
| `AliasPolicies.ScopeServedAlike` | alembic/versions/b5d7f9a1c3e6_move_stored_aliases_into_routing_policies.py:61-98 | each exact name and scope serves what alias-first lookup served |
| `AliasPolicies.CallerServedAlike` | alembic/versions/b5d7f9a1c3e6_move_stored_aliases_into_routing_policies.py:52-98 | a caller is served what they were served exactly when everyone's alias did not hide a different policy of their own |
| `AliasPolicies.HiddenPolicyComesForward` | alembic/versions/b5d7f9a1c3e6_move_stored_aliases_into_routing_policies.py:68-82 | stores without a clash in which a caller is moved to another model |
| `AliasPolicies.AliasesStayUnique` | alembic/versions/b5d7f9a1c3e6_move_stored_aliases_into_routing_policies.py:134-164 | one alias per name and scope after the downgrade |
| `AliasPolicies.DowngradeServesAlike` | alembic/versions/b5d7f9a1c3e6_move_stored_aliases_into_routing_policies.py:101-165 | after the downgrade each exact scope serves alike, and a caller does exactly when no two stored rows changed places |
| `AliasPolicies.OwnPolicyOvertakes` | alembic/versions/b5d7f9a1c3e6_move_stored_aliases_into_routing_policies.py:101-165 | stores without a clash in which a caller is moved to another model |
| `AliasPolicies.RoundTrip` | alembic/versions/b5d7f9a1c3e6_move_stored_aliases_into_routing_policies.py:52-165 | upgrade then downgrade never refuses; every alias is back with target, scope and times, and larger policies are left with their ids |
| `ToolPrices.PricedKeys` | alembic/versions/9964faffc86b_give_search_and_fetch_tools_their_own_price.py:67-80 | the lookup in chunks of 300 finds exactly the keys in force |
| `ToolPrices.RateInForce` | alembic/versions/9964faffc86b_give_search_and_fetch_tools_their_own_price.py:83-94 | the newest version in force as `otari:web_search` else `otari/web_search`, or as `otari:web_fetch` else `otari/web_fetch` |
| `ToolPrices.PriceList.Upgrade` | alembic/versions/9964faffc86b_give_search_and_fetch_tools_their_own_price.py:97-127 | refused by the primary key exactly when a namesake of the built-in fetcher and the fetcher would both be written; otherwise exactly the tools without a price get a row, at the general rate of their kind |
| `ToolPrices.WrittenGivesTheGeneralRates` | alembic/versions/9964faffc86b_give_search_and_fetch_tools_their_own_price.py:97-127 | a tool gets a row exactly when it has none in force as its kind and name, as `provider:name` or in the older spelling, and there is a rate to give or it is the built-in fetcher; all else is as it was |
| `ToolPrices.GeneralPriceIs` | alembic/versions/9964faffc86b_give_search_and_fetch_tools_their_own_price.py:83-94 | which two rows a kind's general price is read from, in which order |
| `ToolPrices.OwnPriceIs` | alembic/versions/9964faffc86b_give_search_and_fetch_tools_their_own_price.py:103-107 | which three rows a tool's own price is read from, in which order |
| `ToolPrices.BilledAtTheFirstRow` | alembic/versions/9964faffc86b_give_search_and_fetch_tools_their_own_price.py:97-127 | a call is billed at the first of those five that is in force |
| `ToolPrices.EveryToolKeepsItsPrice` | alembic/versions/9964faffc86b_give_search_and_fetch_tools_their_own_price.py:97-127 | each tool, stored or built in, ends with a price of its own equal to its own else the general price before (0 for a built-in fetcher without either), exactly when no other tool of its name is written at another price |
| `ToolPrices.PriceAsTimePasses` | alembic/versions/9964faffc86b_give_search_and_fetch_tools_their_own_price.py:97-127 | at any later moment a tool whose name was written is billed as before exactly when a version of that name has started or the older prices say what was written; one whose name was not, exactly when it has a price or there is no general one |
| `ToolPrices.StoredToolsAreAlone` | alembic/versions/9964faffc86b_give_search_and_fetch_tools_their_own_price.py:100-102 | a tool shares its row exactly when it has the built-in fetcher's kind and name and a stored tool took them |
| `ToolPrices.NamesakeSharesThePrice` | alembic/versions/9964faffc86b_give_search_and_fetch_tools_their_own_price.py:109-127 | what such a tool and the built-in fetcher are billed at afterwards |
| `ToolPrices.NamesakeIsRepriced` | alembic/versions/9964faffc86b_give_search_and_fetch_tools_their_own_price.py:109-127 | prices in which its price of 7 becomes 0 |
| `ToolPrices.BuiltinIsRepriced` | alembic/versions/9964faffc86b_give_search_and_fetch_tools_their_own_price.py:109-127 | prices in which the built-in fetcher's price of 5 becomes 9 |
| `ToolPrices.NamesakesClash` | alembic/versions/9964faffc86b_give_search_and_fetch_tools_their_own_price.py:109-127 | prices with which the upgrade is refused |
| `ToolPrices.DowngradeUndoes` | alembic/versions/9964faffc86b_give_search_and_fetch_tools_their_own_price.py:130-131 | the downgrade restores the table exactly when no migration had written a tool's price before |
| `Totals.SumByGroups` | src/gateway/repositories/usage/usage_rollup_repository.py:140-181 | summing within groups and then over the groups counts every row once |
| `UsageMeasures.SumMeasures` | src/gateway/repositories/usage/usage_rollup_repository.py:345-396 | totals count the rows, add up each column of those that recorded it as integers, hold every latency and begin and end with the rows |
| `UsageMeasures.CurrentMeasures` | src/gateway/repositories/usage/usage_rollup_repository.py:345-396 | current rollups measure the rows of each of their hours, from its start up to the next one's |
| `UsageRollups.StepKeepsInv` | alembic/versions/b4d6f8a0c2e3_usage_rollups.py:36-47 | every write, commit, refresh step and start-over keeps an unmarked hour's rollups equal to the sums of its rows |
| `UsageRollups.WriteKeepsInv` | alembic/versions/b4d6f8a0c2e3_usage_rollups.py:36-47 | a write marks every hour whose rows it changes, old and new |
| `UsageRollups.CommitKeepsInv` | src/gateway/repositories/usage/usage_rollup_repository.py:316-397 | committing a refresh is right whatever was written while its transaction was open |
| `UsageRollups.InstalledIsInv` | alembic/versions/b4d6f8a0c2e3_usage_rollups.py:111-128 | marking every hour of the history establishes the invariant |
| `UsageRollups.StartOverKeepsInv` | alembic/versions/d6f8b0c2e4a5_usage_rollup_latencies.py:40-48 | dropping the rollups and marking every hour keeps it, with a refresh open or not |
| `UsageRollups.RunKeepsInv` | alembic/versions/b4d6f8a0c2e3_usage_rollups.py:36-47 | on every run, at every moment, an hour with no mark has the sums of its rows |
| `UsageReads.ReadIsExact` | src/gateway/repositories/usage/usage_rollup_repository.py:245-292 | a read over rollups and rows equals the plain sum over the rows asked for, and measures them: count, sums, latencies, first and last time |
| `UsageReads.RowsAnswerAlone` | src/gateway/repositories/usage/usage_rollup_repository.py:245-292 | the answer does not depend on the rollups where they cannot answer, with more than 48 hours of the window marked, or without a whole hour |
| `UsageReads.HourFromRollups` | src/gateway/repositories/usage/usage_rollup_repository.py:164-195 | a current hour's rollups add up to its rows for any kept keys |
| `UsageReads.HourAsOf` | src/gateway/repositories/usage/usage_rollup_repository.py:245-292 | rollups of an hour unmarked at one moment are, later, its rows' sums as of some moment in between, or none after they were dropped; so are the sums a refresh is about to commit |
| `UsageReads.HourIsLost` | src/gateway/repositories/usage/usage_rollup_repository.py:245-292 | such a moment exists exactly when the hour was not dropped with no refresh after it, or had no rows at some moment |
| `UsageReads.DroppedHourIsLost` | alembic/versions/d6f8b0c2e4a5_usage_rollup_latencies.py:40-48 | a run in which an hour is lost |
| `UsageReads.ReadAcrossCommits` | src/gateway/repositories/usage/usage_rollup_repository.py:245-292 | on every run a read whose two queries straddle commits counts no row of an hour twice and leaves out exactly the lost hours |
| `UsageTables.UsageLogs.InsertRows` | alembic/versions/b4d6f8a0c2e3_usage_rollups.py:36-47 | the insert trigger is a write step of the state machine |
| `UsageTables.UsageLogs.UpdateRows` | alembic/versions/b4d6f8a0c2e3_usage_rollups.py:36-47 | the update trigger marks the hours left and the hours entered |
| `UsageTables.UsageLogs.DeleteRows` | alembic/versions/b4d6f8a0c2e3_usage_rollups.py:36-47 | the delete trigger is a write step |
| `UsageTables.UsageLogs.MarkHistory` | alembic/versions/b4d6f8a0c2e3_usage_rollups.py:111-128 | one new mark for each hour the history spans |
| `UsageTables.UsageLogs.Install` | alembic/versions/b4d6f8a0c2e3_usage_rollups.py:111-128 | the tables start as a run of the state machine does |
| `UsageTables.UsageLogs.StartOverRollups` | alembic/versions/d6f8b0c2e4a5_usage_rollup_latencies.py:40-48 | the later revision is its start-over step |
| `UsageTables.UsageLogs.LatestMarkedHours` | src/gateway/repositories/usage/usage_rollup_repository.py:331-343 | the latest marked hours before the current one, at most so many |
| `UsageTables.UsageLogs.SumRows` | src/gateway/repositories/usage/usage_rollup_repository.py:345-396 | grouping row by row gives each hour and key with rows a cell: how many, the integer sums of the costs and of the tokens recorded, every latency, the first and the last time |
| `UsageTables.UsageLogs.RefreshHours` | src/gateway/repositories/usage/usage_rollup_repository.py:316-397 | a refresh alone takes the marks, rebuilds their hours to measure their rows, and leaves the rest |
| `Decimals.StrippedIsCanonical` | alembic/versions/b7e3c9d2f4a1_add_pricing_rates.py:159-170 | two decimals are one number exactly when their stripped forms are the same |
| `Decimals.NormalizedIsLossless` | alembic/versions/b7e3c9d2f4a1_add_pricing_rates.py:168-170 | normalizing keeps the number exactly when it has at most 28 significant digits |
| `Decimals.RoundedIsNearest` | alembic/versions/b7e3c9d2f4a1_add_pricing_rates.py:112-113 | a longer number becomes the nearest of 28 digits, the even one of two |
| `Decimals.ScaledExactly` | alembic/versions/b7e3c9d2f4a1_add_pricing_rates.py:112-113 | moving the point of such a number never rounds |
| `Spelling.PlainDigitsRead` | alembic/versions/b7e3c9d2f4a1_add_pricing_rates.py:168-170 | a number is printed in plain digits, a subset of section 6 of RFC 8259, that read back as it |
| `JsonRoundTrip.LoadsWhatWasPrinted` | alembic/versions/b7e3c9d2f4a1_add_pricing_rates.py:159-177 | every value's text parses, to the value with its numbers normalized |
| `JsonRoundTrip.RoundTrip` | alembic/versions/b7e3c9d2f4a1_add_pricing_rates.py:159-177 | parsing gives the value back exactly when no number in it has more than 28 significant digits |
| `JsonRoundTrip.LongDecimalIsRounded` | alembic/versions/b7e3c9d2f4a1_add_pricing_rates.py:168-170 | a number that comes back as another |
| `JsonText.DumpMarks` | alembic/versions/b7e3c9d2f4a1_add_pricing_rates.py:159-177 | the text is printable and holds no space or capital that no text of the value holds |
| `JsonText.PlainTextStays` | alembic/versions/b7e3c9d2f4a1_add_pricing_rates.py:171-172 | printable characters but the quote and the backslash stand for themselves |
| `JsonText.NoIdleZeros` | alembic/versions/b7e3c9d2f4a1_add_pricing_rates.py:168-170 | no number ends in a zero after its point |
| `PriceBlocks.GatherOverrides` | alembic/versions/b7e3c9d2f4a1_add_pricing_rates.py:120-133 | the loop gathers each direction's overrides, tier by tier |
| `PriceBlocks.BuildBlock` | alembic/versions/b7e3c9d2f4a1_add_pricing_rates.py:116-147 | the block is the one the row's columns determine |
| `PriceBlocks.Backfill` | alembic/versions/b7e3c9d2f4a1_add_pricing_rates.py:180-188 | every row's text, or the first row whose unit has no slot |
| `PublishedPrices.RowIsPublished` | alembic/versions/b7e3c9d2f4a1_add_pricing_rates.py:36-64 | which units are known, under which names; and in the block of a row whose rates fit, each price, cache rate and tier is where its unit has it, a million times it being the column times what one price buys: 1,000,000 tokens or characters, 1,000 searches, one of anything else |
| `PriceReading.BlockRound` | alembic/versions/b7e3c9d2f4a1_add_pricing_rates.py:40-64 | a block gives back both prices, the cache rates and every tier its unit's slot holds |
| `PriceReading.BlockExact` | alembic/versions/b7e3c9d2f4a1_add_pricing_rates.py:112-156 | no number in a block is too long for the encoder |
| `PriceReading.TextRound` | alembic/versions/b7e3c9d2f4a1_add_pricing_rates.py:112-177 | the stored text, parsed and read, gives back the row's columns |
| `PriceReading.NumericColumnFits` | alembic/versions/b7e3c9d2f4a1_add_pricing_rates.py:37 | a rate fits with up to 28 digits, so a NUMERIC(18,8) column always does |
| `ReexportLoop.Resolve` | scripts/check_architecture.py:1939-1950 | for every path and map: what the loop gives, at the first path that is a definition or was met before, and nothing exactly when the original never returns |
| `ReexportLoop.StopsWithinBound` | scripts/check_architecture.py:1939-1950 | the loop ends exactly when no path it meets outgrows a bound computed from the path and the map |
| `ReexportLoop.GrowsForEver` | scripts/check_architecture.py:1941-1949 | a path that once outgrows the bound outgrows every length |
| `ReexportLoop.CircleNeverStops` | scripts/check_architecture.py:1941-1949 | two keys that lead to each other, one of them to something under the other, make every path under the first grow for ever |
| `ReexportLoop.ImportsInACircleNeverStop` | scripts/check_architecture.py:2093-2098 | two modules that import a name from each other, one of them from under the other's, put such a circle in the map |
| `ReexportLoop.TwoImportsNeverStop` | scripts/check_architecture.py:2093-2098 | two such modules and their map, in which no key leads to something under itself |
| `Reexports.ResolveTwice` | scripts/check_architecture.py:1939-1950 | resolving twice is resolving once, cycles included |
| `Reexports.SameFromOnTheWay` | scripts/check_architecture.py:1939-1950 | every path on the way to a definition resolves to it |
| `Reexports.RankedResolves` | scripts/check_architecture.py:1939-1950 | where re-exports go round no circle every name is followed to a definition, with no prefix left in the map |
| `Reexports.NoLongerTargets` | scripts/check_architecture.py:1939-1950 | where no target is longer than its key the loop stops, pure cycles included |
| `Reexports.SelfExtendingNeverStops` | scripts/check_architecture.py:1939-1950 | a key that leads to something under itself makes the path grow without end |
| `Reexports.SubmoduleOfItsOwnNameNeverStops` | scripts/check_architecture.py:2093-2098 | a package that imports a name from its submodule of that name puts such a key in the map |
| `LayerRules.CheckFile` | scripts/check_architecture.py:402-413 | one violation per refused statement, in order, for the first of its modules that is refused |
| `LayerRules.BannedWhenRefused` | scripts/check_architecture.py:373-392 | a module is refused exactly when some enclosing layer, the file's own rule or the discovery ban refuses it, the exemptions for the container, the adapters, the repositories and the light command line apart |
| `LayerRules.OffenceWhenRefused` | scripts/check_architecture.py:402-413 | a statement is refused exactly when one of its modules is |
| `LayerRules.MoreRulesRefuseMore` | scripts/check_architecture.py:369-378 | a nested layer never permits what its parent refuses |
| `LayerRules.OrderDoesNotMatter` | scripts/check_architecture.py:369-378 | neither refusals nor their reasons depend on the order of the rules |
| `LayerRules.ClosestLayerIsNamed` | scripts/check_architecture.py:369-378 | a refusal names the closest layer that refuses |
| `LayerRules.ReasonIsGiven` | scripts/check_architecture.py:369-392 | the reason given is of a rule that refuses the module, the session accessor's being its own |
| `LayerRules.OwnRuleIsNamedFirst` | scripts/check_architecture.py:379-392 | the file's own rule is named before any layer's, and the ban on discovery last |
| `ModelAccess.CheckModel` | scripts/check_architecture.py:2023-2059 | silent exactly when the repository is usable and off the baseline, and the users are the baseline and it; each kind of violation is reported exactly when there is one |
| `ModelAccess.CheckBaseline` | scripts/check_architecture.py:642-661 | silent exactly when the offenders are the baseline; reports each line of a module off it and each entry that no longer offends, and nothing else |
| `MenuPaths.PagePaths` | scripts/prepare_gitbook_site.py:87-109 | each page's path is its place in the tree, a page listed twice its last one, and the first page the root |
| `MenuPaths.NearestIsNearest` | scripts/prepare_gitbook_site.py:100-104 | a parent is the nearest less deep entry above in the same group |
| `MenuPaths.NearestIsUpTheChain` | scripts/prepare_gitbook_site.py:101-102 | popping deeper frames reaches that entry |
| `MenuPaths.DepthsIncrease` | scripts/prepare_gitbook_site.py:101-107 | the stack's depths are strictly increasing |
| `MenuPaths.PathIsGroupAncestorsOwn` | scripts/prepare_gitbook_site.py:104-106 | a path is the group's slug, the ancestors' and the page's own, those that are not empty, with a slash between each two |
| `MenuSpaces.Split` | scripts/prepare_gitbook_site.py:116-132 | refuses exactly a stray line, or a space without a page; otherwise the spaces are the menu's lines in order |
| `MenuSpaces.SplitKeepsPages` | scripts/prepare_gitbook_site.py:116-132 | no page is lost, repeated or moved |
| `MenuSpaces.NestEndpointPages` | scripts/prepare_gitbook_site.py:181-193 | refuses exactly when the parent is not listed; otherwise only inserts lines, two columns right of its first entry and after the lines further right than that |
| `MenuSpaces.ParentKept` | scripts/prepare_gitbook_site.py:181-193 | an entry keeps its parent exactly when no endpoint page comes between them from above |
| `MenuSpaces.TakenOverEntryExists` | scripts/prepare_gitbook_site.py:186-192 | a menu in which an entry changes parent |
| `MenuSpaces.PathKept` | scripts/prepare_gitbook_site.py:181-193 | a page keeps its path when neither it nor an ancestor is taken over |
| `MenuSpaces.EndpointPageIsAChild` | scripts/prepare_gitbook_site.py:186-191 | an endpoint page is the parent page's child exactly when that has no child one column deeper |
| `MenuSpaces.ShallowChildExists` | scripts/prepare_gitbook_site.py:186-191 | a menu in which it has |
| `LinkRewriting.RewriteLinks` | scripts/prepare_gitbook_site.py:246-265 | as many lines; fences and fenced lines as they were, every other line's links rewritten, or a broken link outside code |
| `LinkRewriting.InsideABlock` | scripts/prepare_gitbook_site.py:254-263 | a line is in a block exactly when a fence outside blocks opens it above and no fence of its mark, as long and alone on its line, comes between |
| `LinkRewriting.RewriteIs` | scripts/prepare_gitbook_site.py:267-291 | a link to another space or to GitHub gets that URL and keeps its anchor, title and text; what is no path, an asset or of the same space stays; every other link is broken, and how |
| `LinkRewriting.RewritingTwiceIsOnce` | scripts/prepare_gitbook_site.py:267-291 | a rewritten page rewrites to itself and to nothing else |
| `LockClosure.NormalizeIsIdempotent` | scripts/homebrew_formula.py:40-42 | normalizing twice is once, and a name is its own normal form exactly when it is normal |
| `LockClosure.NormalizeMakes` | scripts/homebrew_formula.py:40-42 | each run of `-`, `_` and `.` becomes one dash, and everything between stays in order, in lower case |
| `LockClosure.Walk` | scripts/homebrew_formula.py:45-67 | the worklist ends on any lock, cycles included |
| `LockClosure.WalkDone` | scripts/homebrew_formula.py:45-67 | with nothing pending, what was found is everything reachable |
| `LockClosure.Closure` | scripts/homebrew_formula.py:45-67 | succeeds exactly when every reachable name has one entry, with exactly the reachable names but the root |
| `LoadVerdicts.Judge` | loadtest/ab.py:324-335 | a regression exactly when every head turn exceeds every base turn by more than a millisecond and a tenth of the fastest base turn, an improvement in the mirror case; beside it the middle turn of each build |
| `LoadVerdicts.RegressionShowsInTheMedians` | loadtest/ab.py:328-331 | a regression moves the median by more than the threshold |
| `LoadVerdicts.MoreHeadTurnsKeepUnchanged` | loadtest/ab.py:315-335 | more head turns never change an unchanged verdict |
| `LoadVerdicts.MoreBaseTurns` | loadtest/ab.py:329-335 | more base turns never make an improvement of an unchanged route, and leave it unchanged exactly when the fastest head turn does not exceed the slowest base turn by more than the new threshold |
| `LoadVerdicts.OneMoreBaseTurn` | loadtest/ab.py:329-335 | one more base turn changes the verdict exactly when it is faster than all there were and the head stood out by more than the threshold it sets |
| `LoadVerdicts.AFastBaseTurnMakesARegression` | loadtest/ab.py:329-331 | turns in which one fast base turn does |
| `LoadVerdicts.SlowingOnlyBlurs` | loadtest/ab.py:318-331 | slowing turns of both builds, sparing one of each, always leaves a route unchanged exactly when no turn of either stood out on its own |
| `LoadVerdicts.OneSlowedTurnMakesARegression` | loadtest/ab.py:318-331 | turns in which it does not |
| `LoadVerdicts.OrderIsFair` | loadtest/ab.py:226 | the builds take equally many turns, and their places add up to the same exactly in an even number of rounds |

## Left out

- ProviderRates.RateTable.Move: for keys whose names cannot be told apart it says only which turns were taken and what each does; their outcome can depend on the order.
- ProviderPrices.PaysAsBefore: compares the periods charged, by the organization's own rates; which deployment price stands where there is none is not modelled.
- ToolPrices.PriceList.Upgrade: one `now` for the whole run, as in the source; tools defined in `config.yml` are not in the tables.
- Schema changes, indexes being built and dropped, batch rebuilds, dialect branches: only the uniqueness rules over the rows are kept.
- What the transaction around a migration undoes when it refuses.
- New row ids are only distinct; rates and overrides are told apart by their contents or natural keys.
- Whether a stored key decrypts.
- Aliases and policies of `config.yml`, and workspaces, which later revisions add to both tables' scopes.
- The rollups' other measures, the tool costs and the latency histogram: each is a sum like those modelled.
- The refresh's two groupings are one, a TRUNCATE (which fires no trigger), and merging adjacent marked hours into spans.
- Timestamps before the earliest one the model counts from, and time zones other than UTC.
- Lower-casing beyond ASCII, and the sorting and rendering of the formula's resource stanzas.
- Repeated keys in a mapping: the parser keeps every one, where Python's keeps the last; no Python mapping has any.
- Negative zero, infinities, lone surrogates, and Python's limit on the digits of an integer, in the JSON encoder.
- The output column of units whose slot has no place for it; tiers with equal thresholds, of which the last stands.
- Where the names bound in a module come from: parsing Python, annotations, star imports and ambiguous names.
- Reading links and fences out of a line's text; lines come classified, links as tokens.
- Operation pages of the specification, the site build itself, HTTP, the load generator and its report.
- The migration that names a budget per workspace default, the revisions that only add columns, and casts done by the database.
