# Pokemon Team Builder: a verified model of its core

The Pokemon Team Builder scripts pick type-compatible partners for a creature.
This project models their core in Dafny and proves what those scripts promise.

- **Type effectiveness** (`utils/type_functions.py`). `get_wri` builds the 18-slot vector of damage multipliers for one defending type. `build_wri` combines the vectors of a dual type. `type_synergy` scores two creatures against each other.
- **Partner search** (`utils/run_team_builder.py`, `utils/execute_builder.py`). Both scripts score every creature of the dataset against the query creature and sort the scores, best (lowest) first, keeping dataset order among ties. `run_team_builder.py` keeps the first ten and writes them as a fixed-width table to a results file. `execute_builder.py` prints the first ten as table lines.
- **Dataset building** (`utils/pokedex_formatter.py`, `utils/pokedex_scraper.py`). The formatter reshapes the records of an external dataset into dicts keyed by name. The scraper turns the table rows of the pokemondb listing into columns and a DataFrame. It then walks the DataFrame row by row, title by title, and stores one record per creature. A `prev_id`/`alt_form` pair flags alternate forms.

Modules:

- `Outcome`: `Option`, `Result` and the Python exceptions the scripts can raise.
- `PyDict`: Python's insertion-ordered `dict`, modelled as its `items()` sequence.
- `PyText`: the string operations the scripts use.
- `Pokedex`: the scraped record type.
- `TypeFunctions`, `PartnerSearch`, `RunTeamBuilder`, `ExecuteBuilder`, `PokedexFormatter`, `PokedexScraper`: one module per script; `PartnerSearch` holds the rule the two runner scripts share.

Code that updates variables in loops is modelled as methods with loops. Each such method is proved equal to a function that specifies it, and the properties are proved about that function. This covers `get_wri`'s three overwrite passes on an array, the scoring, copying and printing loops, the `max_len` loop, the two formatter loops and both scraper loop nests.

The scraper is modelled twice over.

- The loops themselves: `BuildColumns` and `ScrapePokedex`.
- A reference: `Dataset`, a row-by-row listing put into a dict. `ScrapeStandardPage` proves that on a page with the pokemondb header, the column loops, the DataFrame and the row loops together build exactly that reference. `DatasetKeys`, `DatasetLast` and `DatasetAbsent` then say what the reference holds.

The three record types correspond as follows. The runners read `pokedex.json`, which the scraper writes: a scraped `Entry` whose `dexId` and `types` are set is the runners' `Creature` with the same number, types, stats and alternate-form flag, under the same key. The formatter's `FormattedMon` records go to a separate file that the runners do not read.

Three behaviours of the scraper code are kept as written:

- The header loop leaves the last header title in `name`.
- A record stored before `id` or `type` is ever assigned holds Python's builtin of that name. It is modelled as `None`.
- The `split()[0]` branch for names always yields the whole lower-cased text, since an `isalpha()` string has no space. `NameOf` proves it.

## Model

| member | source | states |
|---|---|---|
| TypeFunctions.TypeIndicesOneToOne | utils/type_functions.py:26-30 | the slot table maps the 18 type names one-to-one onto 0..17 |
| TypeFunctions.WriRange | utils/type_functions.py:33-45 | every multiplier of a single type is 0, 1/2, 1 or 2 |
| TypeFunctions.UnknownAt | utils/type_functions.py:36-45 | finds the first name without a slot, every name before it having one; none is found iff every name has a slot |
| TypeFunctions.UnknownAtAppend | utils/type_functions.py:36-45 | the first unknown name of two lists put together is the first list's, else the second list's shifted past the first |
| TypeFunctions.FirstUnknownOfThree | utils/type_functions.py:36-45 | the first unknown name of the three passes comes from the weaknesses, then the resistances, then the immunities |
| TypeFunctions.Wri | utils/type_functions.py:33-45 | the precedence vector: 18 slots, each 0 if an immunity names it, else 1/2 if a resistance does, else 2 if a weakness does, else 1 |
| TypeFunctions.WriOf | utils/type_functions.py:33-47 | a successful `get_wri` has 18 slots |
| TypeFunctions.Overwrite | utils/type_functions.py:35-45 | one overwrite pass writes `x` into exactly the slots its names select and leaves the rest; an unknown name stops it with that name's position |
| TypeFunctions.NamesSnoc | utils/type_functions.py:36-45 | one more name in a pass selects exactly one more slot, that name's |
| TypeFunctions.PassesGiveWri | utils/type_functions.py:33-45 | overwriting a neutral vector with 2, then 1/2, then 0 gives the precedence vector |
| TypeFunctions.WriOfPasses | utils/type_functions.py:17-47 | for a known defending type, KeyError names the first unknown weakness, else resistance, else immunity; with none, the precedence vector |
| TypeFunctions.GetWri | utils/type_functions.py:17-47 | the three passes give the precedence vector: immunity 0 over resistance 1/2 over weakness 2, else 1; an absent defending type or unknown attacking type raises KeyError naming the first such key |
| TypeFunctions.Product | utils/type_functions.py:54-55 | `zip` and multiply: as long as the shorter vector |
| TypeFunctions.BuildWri | utils/type_functions.py:50-57 | an empty list raises IndexError; a list of other than two types gives the first type's vector; a success has 18 slots |
| TypeFunctions.BuildWriPair | utils/type_functions.py:53-55 | a dual type fails iff one lookup fails, the first type's error first; otherwise its vector is the slotwise product |
| TypeFunctions.BuildWriOrderIndependent | utils/type_functions.py:53-55 | a dual type's vector does not depend on the order of its two types |
| TypeFunctions.BuildWriRange | utils/type_functions.py:50-57 | every multiplier of a creature is 0, 1/4, 1/2, 1, 2 or 4 |
| TypeFunctions.SquaredNormZero | utils/type_functions.py:66-70 | the squared norm is non-negative and zero iff every slot is zero |
| TypeFunctions.TypeSynergy | utils/type_functions.py:60-70 | succeeds iff both vectors can be built; the first creature's error comes first |
| TypeFunctions.TypeSynergySymmetric | utils/type_functions.py:66-67 | `type_synergy(a, b) == type_synergy(b, a)` |
| TypeFunctions.TypeSynergyZero | utils/type_functions.py:66-70 | the score is non-negative and zero iff every slot of the product vector is zero |
| PartnerSearch.ScoresAgainst | utils/run_team_builder.py:86-87 | one score per dataset creature |
| PartnerSearch.ScorePartners | utils/run_team_builder.py:82-89 | every creature, the query included, gets exactly one score against the query, in dataset order; the keys are the dataset's; KeyError iff the query is absent from a non-empty dataset (the same loop is utils/execute_builder.py:57-64) |
| PartnerSearch.InsertByScore | utils/run_team_builder.py:92-93 | inserting adds one entry and keeps the order ascending by score |
| PartnerSearch.InsertPermutes | utils/run_team_builder.py:92-93 | inserting adds the entry to the items and loses none (multiset) |
| PartnerSearch.AscendingPairwise | utils/run_team_builder.py:92-93 | ascending between neighbours means ascending between any two positions |
| PartnerSearch.SortByScore | utils/run_team_builder.py:92-93 | `sorted(..., key=score)` is a permutation of the items and ascending by score |
| PartnerSearch.InsertValid | utils/run_team_builder.py:92-93 | inserting a new name keeps names distinct |
| PartnerSearch.SortValid | utils/run_team_builder.py:92-93 | sorting a dict's items gives a dict again |
| PartnerSearch.InsertStable | utils/run_team_builder.py:92-93 | inserting keeps the order of the entries of each score |
| PartnerSearch.SortStable | utils/run_team_builder.py:92-93 | the sort is stable: equal scores keep dataset order |
| PartnerSearch.RankPartnersProperties | utils/execute_builder.py:57-68 | the ranking has every dataset name exactly once and scores are nondecreasing between any two positions |
| RunTeamBuilder.MaxKeyLength | utils/run_team_builder.py:58-61 | the `max_len` loop computes the longest key length, 0 for an empty dict |
| RunTeamBuilder.LongestKeyBounds | utils/run_team_builder.py:58-61 | the longest key length is at least every key's length and equal to some key's, 0 for no keys |
| RunTeamBuilder.Dashes | utils/run_team_builder.py:66 | `'-' * n` is n dashes |
| RunTeamBuilder.Spaces | utils/run_team_builder.py:71 | `' ' * n` is n spaces, empty for n <= 0 |
| RunTeamBuilder.Padded | utils/run_team_builder.py:71-72 | the padded name starts with the name and is exactly `max_len` long when the name fits |
| RunTeamBuilder.Rows | utils/run_team_builder.py:68-74 | three writes per entry |
| RunTeamBuilder.RowsAt | utils/run_team_builder.py:68-74 | the writes of entry k are that entry's three chunks |
| RunTeamBuilder.RowsSnoc | utils/run_team_builder.py:68-74 | writing the next entry's three chunks extends the rows by that entry |
| RunTeamBuilder.ReportRules | utils/run_team_builder.py:64-75 | 3n + 4 writes; the opening rule is `max_len + 31` dashes and the closing rule equals it |
| RunTeamBuilder.ReportRow | utils/run_team_builder.py:68-74 | entry k is written as rank k + 1, then its name padded to exactly `max_len`, then its formatted score, in dict order |
| RunTeamBuilder.SaveResults | utils/run_team_builder.py:53-76 | the writes `save_results` makes are the report text: opening, three writes per entry, closing rule |
| RunTeamBuilder.KeepFirstTen | utils/run_team_builder.py:95-100 | the copy loop with its break keeps the first min(10, n) entries, in order |
| RunTeamBuilder.FindPartner | utils/run_team_builder.py:78-104 | the kept partners are the first min(10, n) of the ranking and the file holds their table; an absent query in a non-empty dataset raises KeyError and writes nothing |
| ExecuteBuilder.PrintTopTen | utils/execute_builder.py:70-76 | the print loop prints min(10, n) lines, line k ranking entry k as k + 1 |
| ExecuteBuilder.FindPartner | utils/execute_builder.py:53-77 | the printed lines rank the first min(10, n) entries of the ranking with the query name used verbatim; KeyError iff the query is absent from a non-empty dataset |
| PokedexFormatter.ReformatTypes | utils/pokedex_formatter.py:18-29 | one key per distinct type name in order of first appearance, holding the converted lists of the last record with that name |
| PokedexFormatter.TypeValueLowered | utils/pokedex_formatter.py:23-28 | each list is the input list lowered element by element, same length and order; `immunities` comes from `no_effect` |
| PokedexFormatter.MonValueShape | utils/pokedex_formatter.py:35-43 | `dex_id` is the id; six stats in the order HP, Attack, Defense, Sp. Attack, Sp. Defense, Speed; types lowered and sorted |
| PokedexFormatter.ReformatPokedex | utils/pokedex_formatter.py:32-47 | records keyed by English name in order of first appearance; a later duplicate overwrites an earlier one |
| PokedexScraper.DataRows | utils/pokedex_scraper.py:44-50 | the data rows are the leading rows of exactly 10 cells; the first row of another width stops them |
| PokedexScraper.CellOf | utils/pokedex_scraper.py:57-64 | column 0 stays text; any other cell becomes an integer iff it parses |
| PokedexScraper.ColumnCells | utils/pokedex_scraper.py:56-66 | one cell per data row |
| PokedexScraper.ColumnsShape | utils/pokedex_scraper.py:37-68 | one column per header title; each of the first 10 holds its cell of every data row, later ones nothing; IndexError iff the page has no rows or the header is narrower than a data row |
| PokedexScraper.ColumnCellsSnoc | utils/pokedex_scraper.py:66 | appending a row's cell extends the column by that cell |
| PokedexScraper.ColumnsOfAllRows | utils/pokedex_scraper.py:44-68 | columns holding every data row under every title are the columns of the table |
| PokedexScraper.AppendRow | utils/pokedex_scraper.py:53-68 | one row appends its cell k to column k; IndexError iff there are fewer than 10 columns |
| PokedexScraper.BuildColumns | utils/pokedex_scraper.py:37-68 | the column loops compute `Columns` |
| PokedexScraper.FrameOf | utils/pokedex_scraper.py:70-71 | the DataFrame is the titles put into a dict, a later repeated title replacing the earlier one; ValueError iff the columns differ in length |
| PokedexScraper.IntOf | utils/pokedex_scraper.py:90 | `int(cell)`: an integer cell as is, a text cell parsed, else ValueError |
| PokedexScraper.LowerLettersHaveNoSpace | utils/pokedex_scraper.py:105-108 | a lowered `isalpha()` string is non-empty and has no space |
| PokedexScraper.NameOf | utils/pokedex_scraper.py:101-108 | the stored name is always the lowered cell text; an integer cell raises AttributeError |
| PokedexScraper.TypesOf | utils/pokedex_scraper.py:110-112 | the types are the words of the lowered text, sorted ascending; an integer cell raises AttributeError |
| PokedexScraper.StatIndex | utils/pokedex_scraper.py:119-128 | the five stat titles before Speed fill slots 0..4 |
| PokedexScraper.KeysFailLater | utils/pokedex_scraper.py:86-145 | an exception in the title loop ends it |
| PokedexScraper.RowsFailLater | utils/pokedex_scraper.py:84-145 | an exception in one row ends the row loop |
| PokedexScraper.StepFails | utils/pokedex_scraper.py:84-145 | a failing step is the outcome of the whole scrape |
| PokedexScraper.ScrapePokedex | utils/pokedex_scraper.py:73-145 | the row and title loops compute `ScrapeFrame`, exceptions included |
| PokedexScraper.ListingShape | utils/pokedex_scraper.py:84-141 | each row contributes its lowered name, its number, its stats, sorted lowered types, and alt_form iff its number equals the previous row's (0 before the first) |
| PokedexScraper.KeyStep | utils/pokedex_scraper.py:86 | the title loop's next pass is one more step |
| PokedexScraper.StepNumber | utils/pokedex_scraper.py:89-99 | "#" sets `id`, `prev_id`, and `alt_form` iff the number repeats `prev_id` |
| PokedexScraper.StepName | utils/pokedex_scraper.py:101-108 | "Name" sets `name` to the lowered text |
| PokedexScraper.StepType | utils/pokedex_scraper.py:110-112 | "Type" sets `type` to the sorted lowered words |
| PokedexScraper.StepTotal | utils/pokedex_scraper.py:114-116 | "Total" changes nothing |
| PokedexScraper.StepStat | utils/pokedex_scraper.py:119-128 | with a six-slot stats list, a stat title sets only its own slot |
| PokedexScraper.StepSpeed | utils/pokedex_scraper.py:129-141 | with a six-slot stats list, "Speed" stores the record with all six stats under `name` and starts a fresh stats list |
| PokedexScraper.RowHead | utils/pokedex_scraper.py:86-116 | the first four titles of a standard row set number, alt form, name and types |
| PokedexScraper.RowStats | utils/pokedex_scraper.py:119-128 | the five stat titles fill slots 0..4 |
| PokedexScraper.RowSteps | utils/pokedex_scraper.py:86-141 | a standard row stores its record and resets the stats |
| PokedexScraper.RowSpeed | utils/pokedex_scraper.py:129-141 | "Speed" after the five other stats stores the parsed record and resets the stats |
| PokedexScraper.ShowsRowsAct | utils/pokedex_scraper.py:86-141 | on a standard frame every row takes any variables with six stats to that row's replayed variables |
| PokedexScraper.RowsNext | utils/pokedex_scraper.py:84-86 | the row loop's next pass runs the title loop on the next row |
| PokedexScraper.ReplayStats | utils/pokedex_scraper.py:74-141 | every replayed state holds six stats, so `stats[5]` never raises IndexError |
| PokedexScraper.RowsRunNext | utils/pokedex_scraper.py:84-145 | one more row that acts as its parsed row keeps the loops on the replayed variables |
| PokedexScraper.RowsRun | utils/pokedex_scraper.py:84-145 | after n rows that each act as their parsed row, the loops hold the replayed variables and raise nothing |
| PokedexScraper.ReplayStage | utils/pokedex_scraper.py:74-141 | the dict left by replaying the rows from the start is the staged dict |
| PokedexScraper.ReplayPrevId | utils/pokedex_scraper.py:77-99 | after replaying rows, `prev_id` is the last row's number, 0 before any |
| PokedexScraper.StagePrefix | utils/pokedex_scraper.py:133-137 | the staged dict is the listing prefix put into a dict |
| PokedexScraper.StageAll | utils/pokedex_scraper.py:133-137 | staging every row gives the collected listing |
| PokedexScraper.ScrapeStandardFrame | utils/pokedex_scraper.py:73-145 | a DataFrame with the standard header whose rows read as the parsed rows yields the collected listing, whatever title the header loop left in `name` |
| PokedexScraper.DatasetKeys | utils/pokedex_scraper.py:133-137 | the dataset is a dict whose keys are the lowered names in order of first occurrence |
| PokedexScraper.DatasetLast | utils/pokedex_scraper.py:133-137 | under a name, the record of the last row with that name: a later row overwrites an earlier one |
| PokedexScraper.DatasetAbsent | utils/pokedex_scraper.py:133-137 | a name no row has is absent |
| PokedexScraper.LeftoverName | utils/pokedex_scraper.py:38-41 | `name` is left holding the last header title, if the header has one |
| PokedexScraper.PageFrame | utils/pokedex_scraper.py:70-71 | on a standard page the DataFrame is the columns themselves, since no title repeats |
| PokedexScraper.PageRow | utils/pokedex_scraper.py:53-68 | row i of the columns shows the page's row i |
| PokedexScraper.PageColumns | utils/pokedex_scraper.py:37-68 | the columns of a standard page show its rows under the standard header |
| PokedexScraper.ScrapeStandardPage | utils/pokedex_scraper.py:37-145 | the whole script on a standard page yields the reference dataset, whatever follows the table |
| PyDict.Find | utils/pokedex_scraper.py:133 | finds the position of a key, none iff no item has it |
| PyDict.FindAt | utils/pokedex_scraper.py:133 | in a valid dict, the key at position i is found at i |
| PyDict.Lookup | utils/run_team_builder.py:87 | `d[k]`: the value under k, or KeyError(k) iff absent |
| PyDict.Put | utils/pokedex_scraper.py:133 | a new key is appended with its value at the end; assigning to a present key keeps the length |
| PyDict.PutKeys | utils/pokedex_scraper.py:133 | assigning to a present key keeps every key in its position |
| PyDict.PutGet | utils/pokedex_scraper.py:133 | assignment keeps keys distinct, k holds v, other keys unchanged |
| PyDict.FirstOccurrences | utils/pokedex_formatter.py:22-23 | the same keys, without duplicates |
| PyDict.LastIndex | utils/pokedex_formatter.py:22-23 | the last row with a key, none iff no row has it |
| PyDict.CollectSnoc | utils/pokedex_formatter.py:22-23 | one more loop pass is one more assignment |
| PyDict.CollectLast | utils/pokedex_formatter.py:22-23 | a row no later row repeats has its value under its key |
| PyDict.CollectValid | utils/pokedex_formatter.py:22-23 | a dict built by a loop of assignments has distinct keys |
| PyDict.CollectKeys | utils/pokedex_formatter.py:22-23 | its keys are the row keys in order of first occurrence |
| PyDict.CollectGet | utils/pokedex_formatter.py:22-23 | under each key, the value of the last row with that key |
| PyDict.CollectFacts | utils/pokedex_formatter.py:22-23 | valid, keys in order of first occurrence, last row wins |
| PyDict.CollectDistinct | utils/pokedex_scraper.py:70 | with distinct keys every row is kept, in order |
| PyText.Lower | utils/pokedex_formatter.py:23 | `lower()`: same length, no capital left, other characters kept |
| PyText.LowerIdempotent | utils/pokedex_formatter.py:42 | lowering twice is lowering once |
| PyText.LowerAll | utils/pokedex_formatter.py:42 | the list lowered element by element |
| PyText.SplitKeepsNonSpace | utils/pokedex_scraper.py:112 | the words joined are the non-space characters |
| PyText.SplitWords | utils/pokedex_scraper.py:112 | `split()` words are non-empty and space-free |
| PyText.SplitOneWord | utils/pokedex_scraper.py:108 | a non-empty space-free string splits into itself |
| PyText.LexLeTotal | utils/pokedex_formatter.py:42 | string order is total |
| PyText.LexLeTransitive | utils/pokedex_formatter.py:42 | string order is transitive |
| PyText.LexLeAntisymmetric | utils/pokedex_formatter.py:42 | string order is antisymmetric |
| PyText.LexLeReflexive | utils/pokedex_formatter.py:42 | string order is reflexive |
| PyText.AscendingPairwise | utils/pokedex_formatter.py:42 | sorted strings are ordered between any two positions |
| PyText.InsertString | utils/pokedex_formatter.py:42 | insertion keeps the strings and their order |
| PyText.SortStrings | utils/pokedex_formatter.py:42 | `sorted` of strings: a permutation, ascending |
| PyText.DecimalDigits | utils/run_team_builder.py:69 | `str(n)`: non-empty decimal digits without a leading zero |
| PyText.DecimalRoundTrip | utils/run_team_builder.py:69 | the digits read back give n |

## Left out

- File, JSON and network I/O are not modelled: `load_data`, the file read in `get_wri`, `json.dump`, `requests.get`, lxml parsing and xpath. The type data and the dataset are parameters. The scraped page is a sequence of rows of string cells, and the results file and console are the sequences of strings written.
- pandas is modelled only as far as the scripts use it: the dict of columns and the equal-length check. Its other behaviour is not modelled, and neither is a `TypeError` from `json.dump`.
- `argparse`, `main` (which calls undefined functions) and the progress `print`s are not modelled; they compute nothing.
- TypeFunctions.TypeSynergy: returns the squared 2-norm, not the norm. The square root is monotone, so ordering and the zero case are the same.
- The float formatting of scores (`{:.5f}`, `round`) is an abstract function `fmt`.
- Python's `int()` string grammar is an abstract partial function `parseInt`.
- PartnerSearch.ScorePartners, RunTeamBuilder.FindPartner, ExecuteBuilder.FindPartner: the scorer is an abstract total function of two type lists, so an exception that `type_synergy` raises inside the scoring loop (a KeyError for a type missing from the type data or the slot table, an IndexError for an empty type list), which ends `find_partner`, is not modelled. `TypeSynergy` is such a scorer only on type data where every type of the dataset resolves; their KeyError contracts hold for that case.
- PyText.Lower, PyText.IsAlpha, PyText.Split: letters, case and whitespace are ASCII plus the Latin-1 spaces. Python's `str.lower()` also maps non-ASCII capitals (`'É'` to `'é'`), which `Lower` keeps unchanged, and can lengthen a string (`'İ'.lower()` has two code points), whereas `Lower` always keeps the length. `isalpha()` and `split()` likewise see only ASCII letters and these spaces.
- Integers are unbounded, as in Python.
- `get_wri` computes with reals. Its multipliers 0, 1/2, 1, 2 and their products are exact in binary floating point, so nothing is lost.
- utils/stats_analysis.py (floating-point statistics) and utils/basic_functions.py (does not parse) are not part of this model.
