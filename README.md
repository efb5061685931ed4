# Schema-driven storage and the Clockify timer helpers, in Dafny

This project models two pieces of a React Native app repository.

**The `Storage` service** (`services/storage.ts`) sits on top of the MMKV key-value engine. A schema gives each key:
- a declared kind (string, boolean, number or object);
- a default value;
- an optional version.

The service's operations:
- `get` reads a key by its declared kind. It falls back to the default when nothing is stored, when the typed slot is empty, or when stored JSON text does not parse.
- `set` deletes the entry on `null` or `undefined`. Otherwise it writes by the runtime type of the value, storing structured values as JSON text.
- `remove` and `clear` delete one entry or everything.
- Building a store runs a version migration. It evicts every versioned key whose recorded version differs from the schema, records the new versions, and always writes the record back under `__storage_metadata`.
- The `useStorage` hook applies a value-or-default rule: `||` for the string kind and `??` for the others.

**Two helpers of the Linear → Clockify timer script** (`scripts/linear-start-clockify-timer.ts`):
- `calculateElapsedTime` formats an elapsed time as `"<h>h <m>m <s>s"`. The hour and minute parts are dropped when they are not needed.
- The Linear issue-URL check extracts the issue id with a regular expression and exits with status 1 when there is none.

## Modules

| file | module | what it holds |
|---|---|---|
| `wrappers.dfy` | `Wrappers` | `Option` |
| `json.dfy` | `Json` | JavaScript values, truthiness (`\|\|`), nullishness (`??`), and JSON as a `Codec` with the laws the service relies on |
| `mmkv.dfy` | `Mmkv` | the backend as a class over a map of typed entries |
| `storage.dfy` | `Storage` | specification functions `Read`, `Write` and `Migrated`, their lemmas, and the class `Storage.Storage` proved against them |
| `text.dfy` | `Text` | decimal rendering of integers and its inverse, joining with single spaces and its inverse, character search |
| `elapsed_time.dfy` | `ElapsedTime` | `calculateElapsedTime` as a function of the elapsed milliseconds, and a parser that inverts it |
| `issue_url.dfy` | `IssueUrl` | the pattern `linear\.app\/[^/]+\/issue\/([^/]+)` as a leftmost search, and the exit decision |

Each operation has a partner:
- `Read` and `Write` are related by the round trip `ReadAfterWrite`.
- The migration has its effect lemma, idempotence, and the record read back.
- `FormatElapsed` has the inverse `ParseElapsed`.
- The URL matcher has soundness and completeness against the `Link` reading of a URL.

The model follows the code in two places a reader might not expect:
- The version record is rewritten on every construction, even when nothing changed (`services/storage.ts:76`).
- The string kind uses `||`, so a stored empty string reads as the default.

## Model

| member | source | states |
|---|---|---|
| Storage.DescriptorOf | services/storage.ts:82-83 | a schema key gives its own descriptor; a key outside the schema has kind unknown, default `undefined` and no version |
| Storage.Read | services/storage.ts:79-107 | an absent key and a key of unknown kind read as the key's default |
| Storage.Storage.Get | services/storage.ts:79-107 | `get` returns `Read` of the current contents: contains check, typed read with `\|\|` for strings and `??` for booleans and numbers, JSON parse with fallback for objects |
| Storage.Write | services/storage.ts:109-125 | `set` changes only its own key; the key is present afterwards exactly when the value is not nullish |
| Storage.Storage.Set | services/storage.ts:109-125 | the backend afterwards is `Write` of the old contents: delete on null/undefined, typed slot by runtime type, JSON text otherwise |
| Storage.Storage.Remove | services/storage.ts:127-129 | deletes exactly the key; an absent key leaves the backend unchanged |
| Storage.Storage.Clear | services/storage.ts:131-133 | the backend is empty afterwards, the version record included |
| Storage.ReadAfterWrite | services/storage.ts:86-121 | after `set(k, v)`, `get(k) == v` for a non-empty string, any boolean, any number, and any JSON array or object under the matching kind |
| Storage.ForeignValueReadsDefault | services/storage.ts:86-121 | under a primitive kind, a nullish value, a value of another runtime type, or (for strings) `""` reads back as the default; under the object kind, only a nullish value does |
| Storage.UnparsableTextReadsDefault | services/storage.ts:98-106 | under the object kind, stored text that does not parse reads as the default |
| Storage.StructuredUnderStringKind | services/storage.ts:89-120 | an object set under the string kind reads back as its JSON text, not as the object |
| Storage.WriteIsolated | services/storage.ts:109-129 | `set` and `remove` leave what `get` returns for every other key unchanged |
| Storage.ValueOrDefault | services/storage.ts:164-170 | a truthy value is kept and a nullish one replaced; `""`, `false` and `0` are replaced for the string kind and kept for the others |
| Storage.HookSlot | services/storage.ts:145-162 | the reactive binding for the string, boolean and number kinds, and the string binding for an unrecognised kind: `undefined` when no typed slot holds the key, and otherwise a value of the slot's own type |
| Storage.GetAgreesWithHook | services/storage.ts:145-170 | for the string, boolean and number kinds, `get` equals the hook's value-or-default applied to the typed read |
| Storage.UnknownKindDisagreement | services/storage.ts:155-170 | for a key of unrecognised kind holding `""`, `get` gives the default while the hook gives `""` |
| Storage.Storage.constructor | services/storage.ts:53-59 | building a store leaves the backend holding `Migrated` of its old contents |
| Storage.Storage.ValidateAndMigrateVersions | services/storage.ts:61-77 | the backend afterwards is `Migrated` of the old contents |
| Storage.Storage.ReadMetadata | services/storage.ts:62-63 | a missing or empty record text gives the empty record; otherwise the parsed object |
| Storage.Storage.MigrateKey | services/storage.ts:66-72 | a stale key is removed and its declared version recorded; otherwise nothing changes |
| Storage.Storage.EvictStale | services/storage.ts:65-74 | after the loop, exactly the stale keys are evicted and the record holds every declared version, in any key order |
| Storage.RecordedFacts | services/storage.ts:65-74 | an examined versioned key has its declared version in the record; a key that was not stale keeps its old record |
| Storage.RecordStep | services/storage.ts:69-72 | examining one more key changes the record at that key only, and only when it is stale |
| Storage.Migrated | services/storage.ts:61-77 | the migration only removes entries, keeps every entry it does not remove, and always leaves a text record under `__storage_metadata` |
| Storage.MigrationEffect | services/storage.ts:61-77 | the migration evicts exactly the stale keys, keeps every other entry, and always writes the record |
| Storage.MigratedMetadata | services/storage.ts:62-76 | the record written is read back by the next construction exactly |
| Storage.MigrationRecordsVersions | services/storage.ts:65-76 | afterwards every versioned schema key has its version in the record |
| Storage.MigrationKeepsOtherRecords | services/storage.ts:65-76 | record entries of keys outside the schema, and of current keys, are kept |
| Storage.MigrationIdempotent | services/storage.ts:61-77 | a second construction with the same schema finds nothing stale and changes nothing |
| Storage.MigrationAfterClear | services/storage.ts:61-77 | after `clear()`, construction treats every versioned key as new and writes exactly their versions |
| Storage.VersionBumpReadsDefault | services/storage.ts:66-72 | a key evicted by a version change reads as its default |
| Storage.MigrationKeepsCurrent | services/storage.ts:66-72 | a key whose version matches, or that has none, reads the same after the migration |
| Mmkv.StringOf | services/storage.ts:62 | a string read answers exactly when the key holds a string entry, and answers that string |
| Mmkv.BooleanOf | services/storage.ts:93 | a boolean read answers exactly when the key holds a boolean entry, and answers that boolean |
| Mmkv.NumberOf | services/storage.ts:96 | a number read answers exactly when the key holds a number entry, and answers that number |
| Mmkv.Backend.constructor | services/storage.ts:53-56 | the injected backend starts with the given contents |
| Mmkv.Backend.Contains | services/storage.ts:86 | `contains` is true exactly when the key has an entry |
| Mmkv.Backend.GetString | services/storage.ts:90 | `getString` answers the string entry of the key, if there is one |
| Mmkv.Backend.GetBoolean | services/storage.ts:93 | `getBoolean` answers the boolean entry of the key, if there is one |
| Mmkv.Backend.GetNumber | services/storage.ts:96 | `getNumber` answers the number entry of the key, if there is one |
| Mmkv.Backend.Set | services/storage.ts:116 | `set` replaces the key's entry and nothing else |
| Mmkv.Backend.Delete | services/storage.ts:128 | `delete` removes the key's entry and nothing else |
| Mmkv.Backend.ClearAll | services/storage.ts:132 | `clearAll` empties the backend |
| ElapsedTime.JsRem | scripts/linear-start-clockify-timer.ts:164-165 | JavaScript `%`: the remainder of truncating division, smaller in magnitude than the divisor, with the dividend's sign |
| ElapsedTime.Breakdown | scripts/linear-start-clockify-timer.ts:160-165 | for a non-negative elapsed time, minutes and seconds lie in [0, 60) and hours·3600 + minutes·60 + seconds = ⌊elapsed/1000⌋ |
| ElapsedTime.Parts | scripts/linear-start-clockify-timer.ts:166-169 | the seconds part is always last; the hours part appears iff hours > 0; the minutes part iff hours > 0 or minutes > 0; the order is h, m, s; no part has a space |
| Text.ShowInt | scripts/linear-start-clockify-timer.ts:167-169 | a template-literal number is non-empty and has no space |
| Text.ReadShow | scripts/linear-start-clockify-timer.ts:167-169 | reading back the decimal text of a number gives the number |
| Text.SplitJoin | scripts/linear-start-clockify-timer.ts:170 | joining space-free parts with single spaces can be split back into the same parts |
| Text.Join | scripts/linear-start-clockify-timer.ts:170 | `parts.join(' ')` starts with the first part, ends with the last, and is the part itself when there is only one |
| ElapsedTime.FormatElapsed | scripts/linear-start-clockify-timer.ts:159-171 | the text ends with the seconds part, and starts with the hours part when there are whole hours, or else with the minutes part when there are minutes |
| ElapsedTime.ReadParts | scripts/linear-start-clockify-timer.ts:166-169 | the parts of a non-negative clock read back as that clock, in each of the three shapes |
| ElapsedTime.FormatRoundTrip | scripts/linear-start-clockify-timer.ts:159-171 | the formatted text of a non-negative elapsed time parses back to its hours, minutes and seconds |
| ElapsedTime.SameTextSameSecond | scripts/linear-start-clockify-timer.ts:159-171 | two non-negative elapsed times with the same text lie in the same whole second |
| ElapsedTime.NegativeShowsSecondsOnly | scripts/linear-start-clockify-timer.ts:160-170 | a negative elapsed time shows only its (non-positive) seconds part |
| ElapsedTime.OneHourFiveSeconds | scripts/linear-start-clockify-timer.ts:163-170 | one hour and five seconds formats as `"1h 0m 5s"` |
| IssueUrl.MatchPrefix | scripts/linear-start-clockify-timer.ts:59 | a match of the pattern at the start of a text yields a non-empty, slash-free id |
| IssueUrl.MatchPrefixSound | scripts/linear-start-clockify-timer.ts:59 | a match is a reading of the text as host, team, `/issue/`, id, rest |
| IssueUrl.MatchPrefixComplete | scripts/linear-start-clockify-timer.ts:59 | every such reading is the match found, so the greedy runs give a unique id |
| IssueUrl.MatchAt | scripts/linear-start-clockify-timer.ts:59 | the pattern tried at one position yields a non-empty, slash-free id |
| IssueUrl.MatchAtSound | scripts/linear-start-clockify-timer.ts:59 | a match at a position is a `linear.app/<team>/issue/<id>` reading of the URL from there |
| IssueUrl.MatchAtComplete | scripts/linear-start-clockify-timer.ts:59 | every such reading at a position is what the matcher finds there |
| IssueUrl.FirstMatch | scripts/linear-start-clockify-timer.ts:59 | the result is the leftmost position where the pattern matches, or past the end when none does |
| IssueUrl.ExtractIssueId | scripts/linear-start-clockify-timer.ts:59 | the id is non-empty and slash-free; there is none exactly when the pattern matches nowhere; otherwise it comes from the leftmost match |
| IssueUrl.CheckIssueUrl | scripts/linear-start-clockify-timer.ts:59-64 | the script exits with status 1 exactly when the pattern matches nowhere; otherwise it goes on with a non-empty, slash-free id |
| IssueUrl.ExtractFirst | scripts/linear-start-clockify-timer.ts:59 | a match with none before it is the one `match` reports |
| IssueUrl.IdOfIssueLink | scripts/linear-start-clockify-timer.ts:59 | `https://linear.app/<team>/issue/<id><rest>` yields `<id>` for any team, id and slash-led rest |

## Left out

- React: `useStorage` is modelled only through its value-or-default rule (`ValueOrDefault`). The choice of reactive MMKV hook, `useRef`/`useMemo` and the returned setter are not modelled.
- The MMKV engine is an in-memory map of typed entries. A typed getter is assumed to answer `None` when the entry is held in another slot.
- JSON text: `JSON.stringify`/`JSON.parse` are a `Codec` of two functions. The laws the service needs (`Codec.Lawful`: non-empty text that parses back, parse yields JSON values) are preconditions of the lemmas that use them, not a grammar.
- Numbers are integers. NaN, fractions, `-0` and the 64-bit float range are not modelled.
- `console.warn` and `console.error` output is not modelled.
- `get`'s `catch` for backend errors is not modelled, and neither is `set`'s `catch`. The in-memory backend never throws. `JSON.stringify` in `set` throws only on cyclic values and BigInts, and the modelled `Value` has neither, so that failure cannot arise in the model.
- Storage.Storage.constructor: requires the stored record to be absent, empty, or JSON text of an object. The source throws when the text does not parse, and misbehaves when it parses to an array or a primitive. Neither path is modelled.
- The default `mmkv` instance from `lib/mmkv` is not part of this model; the backend is always passed in.
- Inherited `Object.prototype` properties visible through `metadata[key]` are not modelled; the record is a plain map.
- Storage.HookSlot: requires a kind other than the object kind. The object kind's binding `useMMKVObject` (`services/storage.ts:155-156`), which parses the stored JSON, is not part of this model.
- Storage.GetAgreesWithHook: covers the three primitive kinds only, for the same reason.
- `Date.now()` and `startTime` are not modelled; `FormatElapsed` takes their difference in milliseconds as a parameter.
- The rest of the timer script (prompts, the Linear and Clockify API calls, the cache, the spinner) and the other scripts, hooks and configs of the repository are not part of this model.
