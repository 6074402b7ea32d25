# Tokyo Sports race-page extraction, modelled in Dafny

The scraper fetches one race-detail page. It then pulls the race metadata and up to eight rider records out of the parsed HTML. This project models the extraction layer: the string and integer logic that turns looked-up texts into typed, optional fields. It also models the loop that assembles the race and the release script's tag parsing.

The parsed page is a value `Page.Doc`. Text lookup by CSS selector is `Page.GetText`, which gives `None` when nothing matches. Selectors form a small datatype: rider name, rider info, table cell, weather span, title and subtitle. The lookup is uninterpreted, so the model does not assume its text is trimmed.

Modules, one per source file, plus the Python built-ins they rely on:

- `Base`: `Option`, `Py` (a value or a raised `IndexError`/`ValueError`, failure-compatible so `:-` propagates like an uncaught exception), the abstract `Float` and `FloatParser`, and Python truthiness of `str | None`.
- `PyStr`: `str.strip`, `str.split` (with `Join` as its inverse) and `str.partition`.
- `PyInt`: `int(text)` on strings, with decimal rendering as its inverse.
- `Page`: selectors, the page and the lookup.
- `RiderExtractors`: the twelve per-rider extractors, the `3n-2 / 3n-1 / 3n` row layout and the age/class regular expression.
- `RaceExtractors`: the seven race-level extractors.
- `Scraper`: the `Rider` and `Race` records, the loop over slots 1..8 as a method (`Scrape`) proved against a recursive specification (`RidersThrough`, `ScrapeSpec`), and the race assembly.
- `SyncVersion`: the version taken from `GITHUB_REF`.

Behaviour the model reproduces as the code has it:

- Only `AttributeError` and `ValueError` are caught. An info text with too few `/`-separated parts therefore lets `IndexError` escape from registration term, age, bike class, rank or points. That exception then aborts the whole `scrape` call; field failures are not always local. `Scraper.MakeRider` states the exact condition: an occupied slot raises when its info text is present, non-empty and has fewer than four `/`.
- `partition` on a span without `：` gives `""`, not `None`.
- Weather and temperature read the same span (`nth-of-type(2)`), so the two fields always agree.

## Model

| member | source | states |
|---|---|---|
| `PyStr.Strip` | tokyo_sports_scraper/extractors/rider_info.py:33 | `strip()` gives the slice of the text after its leading whitespace; everything outside the slice is whitespace; the slice neither starts nor ends with whitespace |
| `PyStr.StripIdempotent` | tokyo_sports_scraper/extractors/rider_info.py:69 | stripping twice is stripping once |
| `PyStr.StripTrimmed` | tokyo_sports_scraper/extractors/rider_info.py:69 | text that neither starts nor ends with whitespace is left unchanged |
| `PyStr.Split` | tokyo_sports_scraper/extractors/rider_info.py:33 | `split('/')` gives at least one part, and no part contains the separator |
| `PyStr.JoinSplit` | tokyo_sports_scraper/extractors/rider_info.py:51 | joining the parts of a split with the separator gives the text back |
| `PyStr.SplitJoin` | tokyo_sports_scraper/extractors/rider_info.py:51 | splitting a join of separator-free parts gives the parts back |
| `PyStr.SplitCount` | tokyo_sports_scraper/extractors/rider_info.py:51 | a split has exactly one more part than the text has separators |
| `PyStr.SplitHeadIsPartitionHead` | tokyo_sports_scraper/extractors/rider_info.py:33 | part 0 of a split is the text before the first separator |
| `PyStr.Partition` | tokyo_sports_scraper/extractors/race_info.py:42 | `partition` gives head + separator + tail == text with a separator-free head; without a separator the result is (text, "", "") |
| `PyStr.PartitionUnique` | tokyo_sports_scraper/extractors/race_info.py:42 | any split into a separator-free head, the separator and a tail is the one `partition` returns |
| `PyInt.ParseInt` | tokyo_sports_scraper/extractors/rider_info.py:145 | `int(text)` succeeds exactly when the stripped text is an optional '+' or '-' followed by one or more digits; a negative result comes from a leading '-' |
| `PyInt.ParseRender` | tokyo_sports_scraper/extractors/rider_info.py:145 | for every integer k, parsing its decimal rendering gives k |
| `PyInt.ParseIntSound` | tokyo_sports_scraper/extractors/rider_info.py:145 | every accepted text is an optional sign, zeros and the canonical decimal rendering of the value's magnitude; '-' gives a value <= 0 and no '-' a value >= 0 (with `ParseRender`, this fixes the value `int()` returns) |
| `PyInt.ParseIntAccepts` | tokyo_sports_scraper/extractors/rider_info.py:145 | "12", "-3" and "+007" parse to 12, -3 and 7 |
| `PyInt.ParseIntRejects` | tokyo_sports_scraper/extractors/rider_info.py:145-147 | "", "-", "1.5" and "12a" do not parse (ValueError, caught) |
| `RiderExtractors.Name` | tokyo_sports_scraper/extractors/rider_info.py:5-17 | the name is the text of the rider-name selector for slot n, unchanged; None when nothing matches |
| `RiderExtractors.RowLayout` | tokyo_sports_scraper/extractors/rider_info.py:143-215 | for slots 1..8, rows 3n-2, 3n-1 and 3n lie in 1..24 and determine their slot and row kind |
| `RiderExtractors.RowsCover` | tokyo_sports_scraper/extractors/rider_info.py:143-215 | every row 1..24 is one row of one slot in 1..8 |
| `RiderExtractors.RowsDistinct` | tokyo_sports_scraper/extractors/rider_info.py:143-215 | no two (slot, row kind) pairs of slots 1..8 share a row |
| `RiderExtractors.SplitIsRepeatedPartition` | tokyo_sports_scraper/extractors/rider_info.py:51 | indexing a split at k equals partitioning at the first '/' k times and taking the head |
| `RiderExtractors.InfoPart` | tokyo_sports_scraper/extractors/rider_info.py:106-111 | the shared shape `text.split('/')[k].strip() if text else None`: None for absent or empty text; IndexError exactly when the text has fewer than k separators; otherwise the stripped k-th field |
| `RiderExtractors.LockerGround` | tokyo_sports_scraper/extractors/rider_info.py:30-35 | never raises; present iff the info text is non-empty, and then the stripped text before the first '/' (all of it if there is none) |
| `RiderExtractors.RegistrationTerm` | tokyo_sports_scraper/extractors/rider_info.py:48-53 | None for absent or empty info; raises IndexError iff the text has no '/'; else the stripped text between the first and second '/' |
| `RiderExtractors.Rank` | tokyo_sports_scraper/extractors/rider_info.py:106-111 | None for absent or empty info; raises IndexError iff fewer than three '/'; else the stripped fourth field |
| `RiderExtractors.Points` | tokyo_sports_scraper/extractors/rider_info.py:124-129 | None for absent or empty info; raises IndexError iff fewer than four '/'; else `float` of the stripped fifth field: None when that field is blank or does not parse |
| `RiderExtractors.MatchAgeClass` | tokyo_sports_scraper/extractors/rider_info.py:70 | a match is an age "<digits>歳" and a class "<digits>級" whose concatenation starts the text (anchored at the start only) |
| `RiderExtractors.MatchAgeClassComplete` | tokyo_sports_scraper/extractors/rider_info.py:70 | whenever the text starts with such an age and class, the match returns exactly those two |
| `RiderExtractors.MatchAgeClassExamples` | tokyo_sports_scraper/extractors/rider_info.py:70-71 | "36歳2級" gives ("36歳", "2級"), trailing text is ignored, "abc" and an empty part give no match |
| `RiderExtractors.Age` | tokyo_sports_scraper/extractors/rider_info.py:66-73 | None for absent or empty info; IndexError iff fewer than two '/'; a present age is the "<digits>歳" that, followed by some "<digits>級", starts the stripped third field; absent on non-empty info only when no such pair starts it |
| `RiderExtractors.BikeClass` | tokyo_sports_scraper/extractors/rider_info.py:86-93 | None for absent or empty info; IndexError iff fewer than two '/'; a present class is the "<digits>級" that, preceded by some "<digits>歳", starts the stripped third field; absent on non-empty info only when no such pair starts it |
| `RiderExtractors.AgeWithBikeClass` | tokyo_sports_scraper/extractors/rider_info.py:66-93 | age and bike class raise together and are present together; when present they are the age and class starting the stripped third field; when absent no such pair starts it |
| `RiderExtractors.Handicap` | tokyo_sports_scraper/extractors/rider_info.py:142-147 | never raises; Some(k) exactly when the row 3n-2, column 4 cell is non-empty and parses as an integer k |
| `RiderExtractors.HandicapOfRendered` | tokyo_sports_scraper/extractors/rider_info.py:142-147 | a handicap cell holding the decimal rendering of k yields k |
| `RiderExtractors.TrialTime` | tokyo_sports_scraper/extractors/rider_info.py:160-165 | never raises; None for an absent or empty row 3n-1, column 1 cell, else `float` of it, which refuses blank text |
| `RiderExtractors.TrialDeviation` | tokyo_sports_scraper/extractors/rider_info.py:178-183 | never raises; None for an absent or empty row 3n, column 1 cell, else `float` of it, which refuses blank text |
| `RiderExtractors.AverageTrialTime` | tokyo_sports_scraper/extractors/rider_info.py:196-201 | never raises; None for an absent or empty row 3n-2, column 5 cell, else `float` of it, which refuses blank text |
| `RiderExtractors.AverageRaceTime` | tokyo_sports_scraper/extractors/rider_info.py:214-219 | never raises; None for an absent or empty row 3n-1, column 2 cell, else `float` of it, which refuses blank text |
| `RaceExtractors.AfterColon` | tokyo_sports_scraper/extractors/race_info.py:39-44 | None iff the span is absent or empty; "" when it has no '：'; otherwise the suffix after the first '：', with no '：' before it |
| `RaceExtractors.AfterColonRoundTrip` | tokyo_sports_scraper/extractors/race_info.py:42 | for a colon-free label, "<label>：<value>" gives back the value |
| `RaceExtractors.AfterColonExamples` | tokyo_sports_scraper/extractors/race_info.py:42 | "天候：晴れ" gives "晴れ"; "晴れ" gives ""; "" and a missing span give None |
| `RaceExtractors.RaceTitle` | tokyo_sports_scraper/extractors/race_info.py:4-14 | the title is the text of `.race-detail__ttl` unchanged, "" kept; None when nothing matches |
| `RaceExtractors.RaceSubtitle` | tokyo_sports_scraper/extractors/race_info.py:16-27 | the subtitle is the text of the sub-title element unchanged; None when nothing matches |
| `RaceExtractors.Weather` | tokyo_sports_scraper/extractors/race_info.py:29-44 | None exactly when span 2 of the weather block is missing or empty; otherwise what `partition` leaves after its first '：' |
| `RaceExtractors.Temperature` | tokyo_sports_scraper/extractors/race_info.py:46-61 | None exactly when span 2 (the weather span) is missing or empty; otherwise what `partition` leaves after its first '：' |
| `RaceExtractors.Humidity` | tokyo_sports_scraper/extractors/race_info.py:63-78 | None exactly when span 3 is missing or empty; otherwise what `partition` leaves after its first '：' |
| `RaceExtractors.PavementTemperature` | tokyo_sports_scraper/extractors/race_info.py:80-95 | None exactly when span 4 is missing or empty; otherwise what `partition` leaves after its first '：' |
| `RaceExtractors.TrackCondition` | tokyo_sports_scraper/extractors/race_info.py:97-108 | the track condition is span 5's text unchanged, with no label split; None when nothing matches |
| `RaceExtractors.TemperatureIsWeather` | tokyo_sports_scraper/extractors/race_info.py:39-61 | temperature equals weather on every page (same span) |
| `Scraper.MakeRider` | tokyo_sports_scraper/scraper.py:34-52 | a rider is built unless the info text is non-empty with fewer than four '/' or the fastest-time extractor raises; its number is the slot, its name the slot's non-empty name text, every field that extractor's result |
| `Scraper.OccupiedSlotsSpec` | tokyo_sports_scraper/scraper.py:33-36 | the kept slots among 1..k are strictly increasing, at most k, and exactly those whose name text is non-empty |
| `Scraper.RidersThroughRaises` | tokyo_sports_scraper/scraper.py:32-52 | the loop raises after slot k exactly when building some occupied slot's rider up to k raises |
| `Scraper.RidersThroughSlots` | tokyo_sports_scraper/scraper.py:32-52 | loop invariant: after slot k the list's numbers are exactly the occupied slots 1..k, in slot order |
| `Scraper.RidersThroughBuilt` | tokyo_sports_scraper/scraper.py:34-52 | each listed rider is the record built for its own slot |
| `Scraper.Scrape` | tokyo_sports_scraper/scraper.py:32-63 | the loop equals the specification; at most 8 riders with strictly increasing numbers in 1..8; slot j is listed iff its name is non-empty; names match their own slot; race fields are the race extractors' results |
| `Scraper.SamplePageRiders` | tokyo_sports_scraper/scraper.py:33-39 | a page naming slots 1, 2, 4, 6 and 8 (slot 3 empty) gives riders numbered 1, 2, 4, 6, 8 |
| `Scraper.InfoWithoutSeparatorRaises` | tokyo_sports_scraper/extractors/rider_info.py:48-53 | an occupied slot whose info text is "abc" makes registration term raise IndexError, and with it the whole scrape |
| `SyncVersion.TagFromRef` | sync_version.py:4-11 | ValueError iff the ref lacks the "refs/tags/" prefix; otherwise a suffix of the ref, of length \|ref\|-10 or \|ref\|-11, the shorter exactly when a 'v' follows the prefix |
| `SyncVersion.TagRoundTrip` | sync_version.py:6-10 | "refs/tags/" + a version without a leading 'v' gives that version |
| `SyncVersion.TagRoundTripWithV` | sync_version.py:8-9 | "refs/tags/v" + any version gives that version: only one 'v' is removed |
| `SyncVersion.TagFromRefExamples` | sync_version.py:5-11 | "refs/tags/vv1.2" gives "v1.2"; "refs/tags/1.2.3" and "refs/tags/v1.2.3" give "1.2.3"; "" (unset) and a branch ref raise ValueError |

## Left out

- Fetching and parsing (tokyo_sports_scraper/scraper.py:28-30): the HTTP GET, `raise_for_status` and the lxml parse are network I/O and a foreign parser. `Scraper.Scrape` starts from the parsed page, and transport errors are not modelled.
- The selector engine behind `get_text_by_selector` is not part of this model. Lookup is a finite map from selectors to texts, and "first matching element" is not modelled.
- URL building, date formatting and the `Rider`/`Race` classes are not part of this model. The datatypes carry the fields `scrape` passes.
- `RiderInfo(soup, i)` (tokyo_sports_scraper/scraper.py:34) is not part of this model. Its methods are taken to be the `extract_race_rider_*` functions, and constructing it is taken to have no effect.
- `fastest_race_time` has no implementation here. It is a parameter of `Scraper.Scrape` that may return a value or raise.
- `float(text)` is a parameter (`FloatParser`), and float values are never inspected.
- `update_pyproject_version` and the script's entry point (sync_version.py:13-25) are TOML file I/O. `os.getenv('GITHUB_REF', '')` is replaced by the ref passed as a string; the unset variable is "".
- `PyStr.Strip`: strips ASCII whitespace, U+00A0 and U+3000 only, while Python strips every character whose `isspace()` is true.
- `PyInt.ParseInt`: ASCII digits only. It refuses underscores between digits and non-ASCII digits, which Python accepts, and it has no limit on the number of digits, which Python has.
- `RiderExtractors.MatchAgeClass`: `\d` matches ASCII digits only; Python's also matches other Unicode decimal digits.
- The `extractors/__init__.py` re-exports carry no behaviour.
