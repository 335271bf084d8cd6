# ETL-RandomUser in Dafny

A Dafny model of the two pieces of logic at the core of the ETL-RandomUser pipeline.

1. **The consumer's transformer** (`etl-randomuser/transform/transformer.py`). `transform_user`
   validates one raw user record and reshapes it into the canonical envelope
   `{"results": [record]}`. `callback` decides whether a queue message is saved or skipped.
2. **The gender aggregator** (`etl-randomuser/gender_stats.py`). `count_genders` scans the
   storage directory and counts stored users per country and gender, then prints one line
   per country.

Module layout:

| file | module | what it holds |
|---|---|---|
| `wrappers.dfy` | `Wrappers` | `Option` and `Result` |
| `json.dfy` | `Json` | the decoded JSON value and Python truthiness |
| `text.dfy` | `Text` | `str.endswith` and the decimal rendering of `str(int)` |
| `transformer.dfy` | `Transformer` | `transform_user`, `callback`'s decision and the save file name |
| `gender_stats.dfy` | `GenderStats` | the per-entry verdict, the functional fold, the imperative `count_genders` loop and the report |
| `pipeline.dfy` | `Pipeline` | what the aggregator makes of a record the consumer saved |

`transform_user` is a pure function (`Transformer.Transform`). It keeps the reason for each
rejection, and `Transformer.TransformUser` turns any rejection into `None`. Its success
condition is stated independently as `Transformer.Accepts`. The checks run in source order:

1. the nine required keys, each present and not null;
2. the gender;
3. `extracted`;
4. `location`.

The clock read `datetime.now(...)` is the parameter `now`.

`count_genders` is modelled by two layers:

- **The loops** (`GenderStats.CountGenders`, `GenderStats.Report`). These are methods. The
  scan loop updates a counter map and a key-order sequence in place, with one `Counts` value
  per country. Its invariant ties the map, the order and the error log to the functional fold
  `GenderStats.Fold` / `GenderStats.Logged`.
- **The verdict** (`GenderStats.Classify`). This pure function gives what happens to one
  directory entry. It follows Python's evaluation order, so each path through
  `data["results"][0]["location"].get("country")` that raises, and a truthy but unhashable
  country reaching `stats[country]`, is an `Unreadable` verdict: logged and skipped.

A directory entry is a file name plus its decoded content, or `None` when the file cannot
be opened or decoded.

Details of the code the model keeps:

- Only names ending in `.json` are considered (gender_stats.py:11). Other entries are neither read nor logged.
- A record whose `extracted` is present but not an object is rejected, `null` included:
  `None.get` raises. A present `extracted` object without `date` falls back to `now`. An
  `extracted.date` of `null` is copied as `null`.
- The transformer also rejects a non-object `location`.

## Model

| member | source | states |
|---|---|---|
| `Transformer.FirstMissing` | etl-randomuser/transform/transformer.py:25-28 | none is reported exactly when all keys are present and non-null; a reported key is one of the keys and is absent or null |
| `Transformer.FirstMissingAt` | etl-randomuser/transform/transformer.py:26-28 | the key reported is the first absent or null one in list order |
| `Transformer.Transform` | etl-randomuser/transform/transformer.py:17-61 | succeeds exactly when `Accepts` holds (object input, nine keys non-null, valid gender, object `location`, `extracted` absent or an object); on success the result is a one-record envelope |
| `Transformer.TransformUser` | etl-randomuser/transform/transformer.py:57-61 | returns a value exactly when the record is acceptable, and `None` otherwise |
| `Transformer.MissingFieldReported` | etl-randomuser/transform/transformer.py:25-28 | if key k is absent or null and every earlier required key is present, the rejection names key k and the result is `None`, whatever the gender |
| `Transformer.EmptyValuesPass` | etl-randomuser/transform/transformer.py:27 | only null counts as missing: replacing the value of name, email, dob, registered, phone, cell or id in an accepted record by any non-null value (empty string, list or object included) keeps it accepted |
| `Transformer.GenderCheckedAfterPresence` | etl-randomuser/transform/transformer.py:26-31 | with all nine keys present, a gender other than "male" or "female" is rejected as an invalid gender |
| `Transformer.CanonicalCopies` | etl-randomuser/transform/transformer.py:37-53 | the canonical record has exactly the ten canonical keys and copies the eight verbatim fields |
| `Transformer.CopiesFieldsVerbatim` | etl-randomuser/transform/transformer.py:39-52 | on success the record's keys are exactly the canonical ten, and gender, name, email, dob, registered, phone, cell and id equal the input's values |
| `Transformer.LocationProjected` | etl-randomuser/transform/transformer.py:41-46 | on success `location` has exactly city, state, country and postcode, each the input's value or null; a non-object `location` gives `None` |
| `Transformer.ExtractedDateKept` | etl-randomuser/transform/transformer.py:34 | on success `extracted` is `{"date": d}`, where d is the input's `extracted.date` when that key exists (even if null) and `now` otherwise; a non-object `extracted` gives `None` |
| `Transformer.Callback` | etl-randomuser/transform/transformer.py:74-87 | a message is saved exactly when it decodes and the transformer returns a value, and the saved envelope is that value; an undecodable body is a caught callback error |
| `Transformer.SaveFileName` | etl-randomuser/transform/transformer.py:67-68 | a saved record's file name ends in ".json", so the aggregator considers it |
| `GenderStats.CountedExactlyWhen` | etl-randomuser/gender_stats.py:11-19 | a ".json" entry is counted for (country, gender) exactly when results[0] is an object with an object location, its country is truthy and hashable, and its gender is "male" or "female" |
| `GenderStats.Classify` | etl-randomuser/gender_stats.py:11-22 | an entry is Ignored exactly when its name does not end in ".json"; Unreadable (logged) exactly when it is a ".json" entry whose file cannot be decoded, whose `data["results"][0]["location"]` is not reachable as an object, or whose truthy unhashable country meets a valid gender; Uncounted exactly when it is readable but the country is falsy or the gender invalid; Counted otherwise, under the country's key and the gender |
| `GenderStats.Apply` | etl-randomuser/gender_stats.py:19-20 | a counted entry adds one to `stats[country][gender]`, creates the country last in order on first use, and leaves all other counters unchanged; any other entry changes nothing |
| `GenderStats.ApplyValid` | etl-randomuser/gender_stats.py:8-20 | one entry keeps the accumulator's invariant: order without duplicates, equal to the key set, and each country's male + female at least 1 |
| `GenderStats.FoldValid` | etl-randomuser/gender_stats.py:8-20 | after any scan every country key has male + female >= 1, and the order lists each key exactly once |
| `GenderStats.CountGenders` | etl-randomuser/gender_stats.py:7-25 | the loop computes the functional fold's counts and order, logs exactly the unreadable entries in scan order, and renders the report |
| `GenderStats.Report` | etl-randomuser/gender_stats.py:24-25 | one line per country in insertion order, line i being "{country}: {male} male, {female} female" for the i-th country |
| `GenderStats.FoldTally` | etl-randomuser/gender_stats.py:10-20 | each counter equals the number of entries counted for that country and gender, and a country is a key exactly when that number is positive |
| `GenderStats.FoldKeys` | etl-randomuser/gender_stats.py:8-20 | a country is a key exactly when some entry was counted for it |
| `GenderStats.TallyPermutation` | etl-randomuser/gender_stats.py:10-20 | per-country tallies are equal for any two listings with the same multiset of entries |
| `GenderStats.CountsIgnoreListingOrder` | etl-randomuser/gender_stats.py:10-20 | the counts map depends only on the multiset of directory entries, so re-running on an unchanged directory gives identical counts |
| `GenderStats.ApplyTotal` | etl-randomuser/gender_stats.py:19-20 | a counted entry raises the sum of all counters by exactly one; any other entry leaves it unchanged |
| `GenderStats.FoldTotal` | etl-randomuser/gender_stats.py:10-20 | the sum of all counters equals the number of counted entries, which never exceeds the number of ".json" entries |
| `GenderStats.NonJsonIgnored` | etl-randomuser/gender_stats.py:10-11 | dropping every entry not named "*.json" leaves the counts and the order unchanged |
| `GenderStats.NonJsonNotLogged` | etl-randomuser/gender_stats.py:10-11 | entries not named "*.json" are never logged as errors |
| `GenderStats.OrderOfFirstOccurrence` | etl-randomuser/gender_stats.py:24 | the order after any prefix of the listing is a prefix of the final order: countries are never reordered |
| `GenderStats.FirstCountedPrintsFirst` | etl-randomuser/gender_stats.py:19-25 | a country counted within the first k entries comes before, in the printed order, every country first counted after them |
| `GenderStats.OnlyFirstResultInspected` | etl-randomuser/gender_stats.py:16 | two envelopes with the same results[0] get the same verdict, whatever the other results or top-level keys |
| `GenderStats.StoredUserCounted` | etl-randomuser/gender_stats.py:16-20 | a stored user with a non-empty string country and a valid gender is counted under that country and gender |
| `GenderStats.TwoFrenchUsersAndACorruptFile` | etl-randomuser/gender_stats.py:10-22 | a female and a male FR user plus an undecodable file give {FR: 1 male, 1 female}, with only the undecodable file logged |
| `GenderStats.OneLinePerCountry` | etl-randomuser/gender_stats.py:24-25 | every country with a counter is printed on exactly one line, carrying its counts |
| `GenderStats.LineDeterminesCounts` | etl-randomuser/gender_stats.py:25 | a country's report line determines both of its counts |
| `Text.NatToStringRoundTrip` | etl-randomuser/gender_stats.py:25 | reading the printed decimal digits of a count gives back the count |
| `Pipeline.SavedRecordVerdict` | etl-randomuser/gender_stats.py:16-20 | a record the consumer saved is counted under its input's location.country and gender when that country is truthy and hashable, passed over when it is falsy, and logged only when it is a non-empty list or object |

## Left out

- `etl-randomuser/ingestion/ingest.py` is not part of this model. `fetch_users` retries HTTP requests with sleeps, `publish_to_queue` does broker I/O, and the ingestion loop never terminates.
- `wait_for_rabbitmq` and `main` in `transformer.py` are not modelled. They poll the broker with sleeps and subscribe with automatic acknowledgement.
- The write in `save_user` is not modelled: the directory creation, `json.dump` with indentation, and the clock. `Transformer.SaveFileName` takes the timestamp digits as a parameter. The aggregator is assumed to read back the envelope that was written.
- `datetime.now(...)` is the parameter `now`. Python evaluates it even when `extracted.date` is used, which has no observable effect.
- `json.loads`, `json.load`, `os.listdir` and `open` are not modelled. A message body is decoded or `Undecodable`, a directory entry's content is a value or `None`, and the listing is a given sequence in listing order.
- `print` logging is not modelled beyond two things: which action `callback` takes, and which file names `count_genders` logs. The message texts are not modelled.
- `Transformer.Transform`: for a non-object message the reason kept is `NotAnObject`. Python reports either "Missing required field: gender" or a `TypeError`, depending on the value. The result is `None` either way.
- JSON floats, `NaN` and `Infinity` are not modelled: numbers are integers. A float country such as `1.0`, which Python treats as the same key as `1` and `true`, is not covered.
- `GenderStats.Display`: the country `true` shares the key `1` with the number 1. Python prints the label of whichever was inserted first ("True" or "1"); the model always prints "1".
- Objects are maps, so the key order of Python dictionaries is not modelled. It only affects the layout `json.dump` writes.
- A failed file write inside `callback` (caught and logged) is not modelled, since saving is an abstract action.
- Filename collisions between concurrent consumers, and directory snapshots taken while files are written, are not modelled. Both are concurrency between processes.
