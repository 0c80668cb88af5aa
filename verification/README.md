# Project tracker, project store and Gemini text parser: a Dafny model

This project models three small pieces of the PAL MCP server and proves
properties about them.

- **The project store** (`utils/project_storage.py`). It keeps `ProjectContext` records in two tiers.
  - The memory tier is a dictionary keyed by project id. Python dictionaries iterate in insertion order, so the model keeps a map plus the keys in insertion order (`Store.order`). `Valid` states that `order` lists each memory key exactly once.
  - The file tier is the `~/.pal/projects` directory. It is modelled as a map from the sanitised id (the file-name stem) to the record in that file.
  - The order in which a directory scan visits the files is a parameter, `glob`. It is required to list exactly the files that exist.
  - `Restart` models a new process: its memory tier is empty and it sees the same files.
- **The project tracker tool** (`tools/project_tracker.py`). It has three modes, `capture`, `retrieve` and `status`, plus the dispatch in `execute`.
  - The tool calls no model, so each reply is a pure function of the request, the store, the fresh id `uuid4()` would produce, two clock readings (`Env`) and the scan order.
  - Replies are modelled by structure only: status, continuation offer, and a `Body` saying what the content reports. The markdown wording is not modelled.
- **The Gemini CLI text parser** (`clink/parsers/gemini_text.py`). It maps (stdout, stderr) to a response or a `ParserError`.
  - Stripping follows Python's `str.strip()`. `IsSpace` lists every character for which `str.isspace()` holds.

Files: `basics.dfy` (Option, Result, duplicate-free sequences, `xs[:n]`), `gemini_text.dfy`, `project_storage.dfy`, `project_tracker.dfy`, `storage_properties.dfy`, `tracker_properties.dfy`.

Where the docstrings and the code disagree, the model follows the code.
- The docstrings at `utils/project_storage.py:8` and `:49` mention a 3-hour TTL. The memory tier (`:59`) is a plain dictionary, and nothing ever expires.
- A capture reuses `continuation_id` when one is given, and draws a fresh id only otherwise (`tools/project_tracker.py:307`).

## Model

| member | source | states |
|---|---|---|
| `GeminiText.Parse` | clink/parsers/gemini_text.py:15-23 | Parsing fails with the "empty stdout" error exactly when stdout is all whitespace. On success the content is the stripped stdout, is non-empty, and has no whitespace at either end. The only metadata key is `stderr`. It is present exactly when stderr is not blank, and its value is the stripped stderr. |
| `GeminiText.Strip` | clink/parsers/gemini_text.py:16 | The stripped string has no whitespace at either end. It is empty exactly when the input is all whitespace, and it is never longer than the input. |
| `GeminiText.StripUnique` | clink/parsers/gemini_text.py:23 | Reference definition of strip: whenever a string is whitespace, then a trimmed middle, then whitespace, stripping it yields exactly that middle. |
| `GeminiText.StripBounds` | clink/parsers/gemini_text.py:23 | The two-scan strip algorithm returns bounds lo and hi. Everything before lo and after hi is whitespace, and the slice between them is trimmed and equals `Strip`. So every string splits as `StripUnique` describes. |
| `GeminiText.StripDecomposes` | clink/parsers/gemini_text.py:23 | Every string is its strip with whitespace before and after it. |
| `GeminiText.StripIdempotent` | clink/parsers/gemini_text.py:23 | Stripping a stripped string changes nothing. |
| `GeminiText.StripIgnoresSurroundingSpace` | clink/parsers/gemini_text.py:16 | Whitespace added around a string does not change its strip. |
| `GeminiText.ReparseContent` | clink/parsers/gemini_text.py:23 | Feeding the parsed content back in as stdout succeeds and yields the same content, whatever the stderr. |
| `GeminiText.ParseIgnoresSurroundingSpace` | clink/parsers/gemini_text.py:16-23 | Whitespace added around stdout does not change the parse result. |
| `ProjectStorage.Sanitize` | utils/project_storage.py:250-254 | The file-name stem holds only ASCII letters, digits and `-`, and is never longer than the id. |
| `ProjectStorage.SanitizeAppend` | utils/project_storage.py:253 | Sanitising a concatenation is the concatenation of the sanitised parts, so each character is kept or dropped on its own. |
| `ProjectStorage.SanitizeSelects` | utils/project_storage.py:253 | The stem is an order-preserving subsequence of the id. Strictly increasing positions spell it, and every safe character of the id is at one of those positions. |
| `ProjectStorage.SanitizeFixpoint` | utils/project_storage.py:253 | An id maps to itself exactly when it is already in the letters-digits-dash alphabet. |
| `ProjectStorage.SanitizeIdempotent` | utils/project_storage.py:253 | Sanitising twice gives the same result as sanitising once. |
| `ProjectStorage.SanitizeId` | utils/project_storage.py:253 | The character-by-character join the source performs computes exactly `Sanitize`. |
| `ProjectStorage.Remember` | utils/project_storage.py:87 | A dictionary assignment sets the key and leaves everything else alone. A new key goes to the end of the insertion order, and an existing key keeps its place. The order invariant is preserved. |
| `ProjectStorage.Save` | utils/project_storage.py:72-94 | `save` returns the project id and stores the record, stamped with the save time, in memory under that id. No other memory entry changes. A new id goes to the end of the insertion order, and an existing id keeps its place. The file tier is unchanged without `persist`. With `persist` the file tier gains the record under the sanitised id and nothing else changes. `Save` preserves both the order invariant and the invariant that every file is named by its record's id. |
| `ProjectStorage.Get` | utils/project_storage.py:96-121 | `get` returns the memory entry if the id is in memory, and changes nothing. Otherwise it returns the file at the sanitised id and caches that record in memory under the requested id, at the end of the insertion order. When every file is named by its record's id, the record found this way has an id that sanitises to the requested one. A miss in both tiers returns none and changes nothing. Files are never touched. |
| `ProjectStorage.Without` | utils/project_storage.py:198 | Removing a key from the insertion order keeps exactly the other keys, and no key occurs twice afterwards. |
| `ProjectStorage.WithoutAbsent` | utils/project_storage.py:197-198 | Removing a key that is not in the insertion order leaves the order unchanged. |
| `ProjectStorage.WithoutAt` | utils/project_storage.py:198 | `del` on a dictionary closes the gap: removing the key at position i of a duplicate-free order leaves the keys before i followed by the keys after i, in their old relative order. |
| `ProjectStorage.Delete` | utils/project_storage.py:182-213 | `delete` reports true exactly when the id was in memory, or when `delete_file` is set and its file existed. Afterwards the id is absent from memory. The remaining keys keep their insertion order: the order is unchanged when the id was not in memory, and otherwise it loses exactly the id's position. With `delete_file` the file is gone, and without it the files are untouched. Both store invariants are preserved. |
| `ProjectStorage.FirstNamed` | utils/project_storage.py:137-140 | The scan returns the first position whose record has the name, or none when no record in the scanned range has it. |
| `ProjectStorage.GetByName` | utils/project_storage.py:123-143 | Any result has the requested name. The result is none exactly when no record in either tier has that name. If a memory record has the name, the result is the first such record in insertion order. Otherwise it comes from a file. |
| `ProjectStorage.MemoryEntries` | utils/project_storage.py:155-162 | There is one memory row per key, in insertion order, carrying that key and the record's name and update time. |
| `ProjectStorage.FileEntries` | utils/project_storage.py:164-178 | The file rows list each id once, never list an already-seen id, and list exactly the non-empty ids of the scanned files that were not seen before. Each row is the row of some scanned file. |
| `ProjectStorage.ListProjects` | utils/project_storage.py:145-180 | The listing names each id once. Its ids are exactly the memory keys together with the non-empty ids recorded in files. The memory rows come first, in insertion order. An id present in memory is always reported from memory. Any other row is some file's row. |
| `ProjectStorage.ListProjectsProps` | utils/project_storage.py:164-165 | Memory wins on a shared id: file rows whose id is already in memory are skipped. This lemma proves the listing's uniqueness, id-set and source claims. |
| `ProjectStorage.Restart` | utils/project_storage.py:58-62 | A new storage object starts with an empty memory tier over the same files. |
| `StorageProperties.SaveThenGet` | utils/project_storage.py:108-112 | Reading back the id `save` returns yields the saved record from memory, and the read changes nothing. |
| `StorageProperties.PersistSurvivesRestart` | utils/project_storage.py:114-121 | A persisted record is found again after a restart. |
| `StorageProperties.UnpersistedLostOnRestart` | utils/project_storage.py:90-92 | A record saved without `persist`, with no older file under its name, is not found after a restart. |
| `StorageProperties.GetTwice` | utils/project_storage.py:116-119 | Reading twice returns the same record, and the second read leaves the store as the first one left it. |
| `StorageProperties.CollidingIdsShareFile` | utils/project_storage.py:224-230 | Two ids with the same sanitised form share one file. After a restart, reading either id returns the persisted record. |
| `StorageProperties.CollisionExample` | utils/project_storage.py:253 | `a.b` and `ab` both sanitise to `ab`. |
| `StorageProperties.DeleteThenGet` | utils/project_storage.py:193-213 | After a delete that includes the file, reading the id finds nothing. |
| `StorageProperties.SoftDeleteReloads` | utils/project_storage.py:203-205 | A delete that keeps the file is undone by the next read, which reloads the file. |
| `StorageProperties.DeleteTwice` | utils/project_storage.py:193-213 | A second identical delete reports false and changes nothing. |
| `StorageProperties.SaveThenGetByName` | utils/project_storage.py:135-143 | After a save, looking up the record's name finds a record with that name. It is exactly the saved record when no other memory entry has the name. |
| `StorageProperties.SaveThenList` | utils/project_storage.py:154-162 | After a save, the listing shows the saved record as a memory row. |
| `Basics.Take` | tools/project_tracker.py:382 | `xs[:n]` returns the longest prefix with at most n elements: either exactly n elements or the whole list. |
| `ProjectTracker.ListOr` | tools/project_tracker.py:314-317 | `value or []` gives a provided list verbatim, and `[]` when the list is absent. |
| `ProjectTracker.NewProject` | tools/project_tracker.py:310-318 | The captured record carries the given id and name. A missing context becomes `""`. Missing lists become empty, and provided lists are kept verbatim and in order. The summary is empty and the metadata is empty. |
| `ProjectTracker.CaptureMode` | tools/project_tracker.py:297-362 | Without a project name, capture returns an error and the store is unchanged. With a name, it returns `continuation_available` with an offer of 50 turns. The offer echoes the continuation id when one is given, and the fresh id otherwise. The record, saved under that id, is the one the reply reports. The `persisted` flag is true only for an explicit `persist = true`. |
| `ProjectTracker.Lookup` | tools/project_tracker.py:366-374 | Lookup tries the continuation id first. The name is consulted only when the id is absent or misses. A miss never changes the store, and files never change. |
| `ProjectTracker.Available` | tools/project_tracker.py:378-383 | A not-found reply shows at most 10 projects, and they are a prefix of the full listing. It shows the whole listing when that has fewer than 10. |
| `ProjectTracker.RetrieveMode` | tools/project_tracker.py:364-454 | On a hit, retrieve returns the whole record with status `continuation_available` and an offer of its id for 50 turns. On a miss it returns an error with no offer, showing the first 10 projects of the listing, and the store is unchanged. The store afterwards is the one the lookup leaves. |
| `ProjectTracker.Summary` | tools/project_tracker.py:496 | The status summary is the context itself when it has at most 100 characters. Otherwise it is the first 100 characters followed by `...`. An empty context gives `No summary`. |
| `ProjectTracker.StatusMode` | tools/project_tracker.py:456-509 | Status always succeeds and never offers a continuation. A hit gives the record's overview: its id, name, summary line, number of blockers, first next step (or `No next steps defined`) and update time. A miss gives the first 10 projects of the listing and leaves the store unchanged. The store afterwards is the one the lookup leaves. |
| `ProjectTracker.Execute` | tools/project_tracker.py:256-295 | An unknown mode is an error that changes nothing, and status mode never errors. The reply is an error exactly for an unknown mode, a capture without a name, or a retrieve miss. Only a persisted capture writes files. Retrieve and status never change or remove an existing memory entry, and can only add the requested continuation id. |
| `TrackerProperties.CaptureThenRetrieveById` | tools/project_tracker.py:369-370 | Retrieving by the id a capture offers restores the captured record. Decisions, blockers and next steps are the same and in the same order, and the offer is the same. |
| `TrackerProperties.CaptureThenRetrieveByName` | simulator_tests/test_project_tracker.py:146-160 | Retrieving by the captured project name alone finds a record with that name. It is the captured record unless another memory entry has the same name. |
| `TrackerProperties.CaptureThenStatus` | simulator_tests/test_project_tracker.py:122-138 | Status by the offered id reports the captured context's summary line, the blocker count and the first next step. |
| `TrackerProperties.IdHitIgnoresName` | tools/project_tracker.py:368-374 | When the continuation id finds a record, changing the project name changes neither the retrieve reply nor the status reply. |
| `TrackerProperties.IdMissFallsBackToName` | tools/project_tracker.py:372-374 | When the continuation id misses, the lookup equals a lookup by name alone, and the store is unchanged. |
| `TrackerProperties.MissVerdicts` | tools/project_tracker.py:376-401 | When both lookups miss, retrieve and status show the same listing of at most 10 projects and leave the store unchanged. Retrieve reports `error` and status reports `success` (lines 484-488). |
| `TrackerProperties.RefusalsChangeNothing` | tools/project_tracker.py:299-304 | A capture without a name, and any unknown mode, returns an error and leaves the store untouched. |
| `TrackerProperties.DarkModeHandOff` | simulator_tests/test_project_tracker.py:49-162 | In the hand-off scenario, a persisted capture is restored in a fresh process, by the offered id and by name. All of its decisions, blockers, next steps and focus areas come back in order. |

## Left out

- File I/O and JSON are not modelled: `_save_to_file`, `_load_from_file`, `_load_from_file_by_name` and `_ensure_projects_dir`. The file tier is a map, so a write always succeeds and a read always parses. A swallowed I/O or parse failure would make a file behave as absent; this is not modelled.
- `delete` when `unlink` raises `OSError`: the source keeps the file and does not set `deleted`. The model treats the unlink as succeeding.
- `threading.Lock` and the singleton `get_project_storage` are not modelled. They exist only for concurrency and process-wide wiring.
- `uuid.uuid4()` and `datetime.utcnow()` are not modelled. Their values come in through `Env`. A new record's `updated_at` starts equal to its `created_at`, which `save` then overwrites.
- The directory scan order is not modelled. It is the `glob` parameter, which must list every file.
- The markdown text of replies is not modelled. This includes the `[:8]` cut of ids and the `[:10]` cut of dates in listings, and the `metadata` dictionaries of `ToolOutput`; the record in the reply carries those values.
- Request validation (pydantic `ProjectTrackerRequest`) and the MCP `TextContent` wrapping are not modelled. A mode outside the three valid ones becomes `Mode.Unknown`, an error that changes nothing. This is the same outcome as a validation failure caught by `execute`.
- `get_input_schema`, `get_tool_fields`, `prepare_prompt` and the other tool metadata getters are constants or schema and are not modelled.
- The TTL eviction named in the docstrings is not modelled, because the code implements none.
- `systemprompts/project_tracker_prompt.py` is a constant prompt string with no logic, so it is not modelled.
- `save` sets `updated_at` on the caller's object in place and stores that same object (`utils/project_storage.py:83`, `:87`). The model returns a stamped copy instead, so object identity and aliasing are not modelled.
- ProjectStorage.Sanitize: keeps only ASCII letters and digits (and `-`), while Python's `str.isalnum` also accepts non-ASCII letters and digits, which the source would keep.
- ProjectStorage.ProjectContext: `metadata` values are strings, while the source allows any JSON value.
