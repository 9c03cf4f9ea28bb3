# prospector: pylint file filter and console capture

A Dafny model of two small pieces of prospector, the Python tool that runs
several linters over a project.

- `linter.dfy` (module `PylintLinter`) models `ProspectorLinter`, the
  subclass of pylint's `PyLinter` that prospector drives. Its override of
  `_expand_files` filters what pylint's own expansion found through the
  `is_excluded` predicate of the caller's file set. Pylint returns that
  expansion in one of two shapes. Releases newer than 2.15.6 return a
  path-keyed mapping. Older releases return a sequence of records, each with
  a `path` field. In the older shape the filter also removes duplicate
  paths: a Python `dict` keyed by path is built, so the last record for a
  path wins and keeps the position where the path was first seen.
  `ExpandFiles` is proved against reference definitions (`FilterMapping`,
  `FilterRecords`, `LastWins`), and lemmas state what those definitions
  promise.
- `utils.dfy` (module `CaptureUtils`) models `CaptureStream`, an in-memory
  text sink, and `CaptureOutput`, the context manager that can hide console
  output. The process-wide handles `sys.stdout`, `sys.stderr`,
  `sys.__stdout__` and `sys.__stderr__` are made explicit as a `Streams`
  object that `Enter` and `Exit` receive. A `with` block is modelled by
  calling `Exit` after `Enter` (`CaptureScope`).

The exclusion predicate is a parameter of type `Path -> bool`. It is held by
`FoundFiles`, which stands for the caller's file set. The installed pylint
version is a `Version` value compared in release order. The shape of the
expansion must match that version, because that is what pylint guarantees.

## Model

| member | source | states |
|---|---|---|
| `PylintLinter.ProspectorLinter.constructor` | prospector/tools/pylint/linter.py:16-19 | the linter keeps the caller's file set |
| `PylintLinter.ProspectorLinter.ExpandFiles` | prospector/tools/pylint/linter.py:27-43 | the version alone picks the result shape (a mapping for pylint newer than 2.15.6, the values of the dictionary otherwise); for a mapping, the result's keys are exactly the non-excluded input keys, each keeps its input value, and the size is the input size minus the number of excluded keys; for records, the result is the values of the dictionary `FilterRecords` builds |
| `PylintLinter.InsertionDict.Put` | prospector/tools/pylint/linter.py:42 | `filtered[path] = record` keeps the dictionary well formed (distinct keys, keys match entries), sets the entry, keeps an existing key's position and appends a new key at the end |
| `PylintLinter.EmptyDict` | prospector/tools/pylint/linter.py:29 | `filtered = {}` is a well-formed dictionary with no entries |
| `PylintLinter.FilterRecords` | prospector/tools/pylint/linter.py:37-42 | the dictionary built by the loop over records is well formed at every step |
| `PylintLinter.FilterMappingSize` | prospector/tools/pylint/linter.py:32-35 | the filtered mapping has as many entries as the input minus the excluded keys |
| `PylintLinter.KeptPathsSnoc` | prospector/tools/pylint/linter.py:40 | one more record adds its path to the non-excluded paths exactly when it is not excluded |
| `PylintLinter.FilterRecordsKeys` | prospector/tools/pylint/linter.py:37-42 | the dictionary's keys are exactly the non-excluded paths of the input |
| `PylintLinter.FilterRecordsValues` | prospector/tools/pylint/linter.py:40-42 | every value in the dictionary is an input record and is filed under its own path |
| `PylintLinter.FilterRecordsLast` | prospector/tools/pylint/linter.py:41-42 | for a path seen several times, the dictionary holds the last record with that path |
| `PylintLinter.LegacyResultProperties` | prospector/tools/pylint/linter.py:37-43 | the returned records are non-excluded input records with pairwise distinct paths; each is the last input record for its path; every non-excluded path of the input is represented |
| `PylintLinter.FilterRecordsKeyOrder` | prospector/tools/pylint/linter.py:41-43 | the records come out in the order their paths first appear: keys built from any prefix of the input are a prefix of the final keys |
| `PylintLinter.ShapesAgree` | prospector/tools/pylint/linter.py:32-42 | the two shapes agree: filtering the records gives the same entries as filtering the mapping that holds each path's last record |
| `CaptureUtils.CaptureStream.constructor` | prospector/tools/utils.py:7-8 | a fresh sink is empty |
| `CaptureUtils.CaptureStream.Write` | prospector/tools/utils.py:10-12 | `write` appends the text to the contents and returns its length |
| `CaptureUtils.CaptureStream.Close` | prospector/tools/utils.py:14-15 | `close` leaves the contents unchanged and changes nothing else |
| `CaptureUtils.CaptureStream.Flush` | prospector/tools/utils.py:17-18 | `flush` leaves the contents unchanged and changes nothing else |
| `CaptureUtils.WriteAll` | prospector/tools/utils.py:10-12 | after a sequence of writes, the contents are the old contents followed by the written texts in order |
| `CaptureUtils.CaptureOutput.constructor` | prospector/tools/utils.py:21-27 | a new capture holds its flag, no saved handles and no sinks |
| `CaptureUtils.CaptureOutput.Enter` | prospector/tools/utils.py:29-41 | with `hide` off nothing changes; with `hide` on, the four handles are saved in order, and two fresh, distinct, empty sinks are installed: one as both `stdout` and `__stdout__`, the other as both `stderr` and `__stderr__` |
| `CaptureUtils.CaptureOutput.GetHiddenStdout` | prospector/tools/utils.py:43-45 | needs a stdout sink and returns its contents |
| `CaptureUtils.CaptureOutput.GetHiddenStderr` | prospector/tools/utils.py:47-49 | needs a stderr sink and returns its contents |
| `CaptureUtils.CaptureOutput.Exit` | prospector/tools/utils.py:51-55 | with `hide` off nothing changes; with `hide` on, it needs saved handles, restores all four exactly and forgets them |
| `CaptureUtils.CaptureScope` | prospector/tools/utils.py:29-55 | enter followed by exit leaves all four handles as they were, whatever `hide` is; with `hide` on, the body's writes to stdout are captured exactly, across `flush` and `close` |

## Left out

- `config_from_file` (prospector/tools/pylint/linter.py:22-25) hands the file to pylint's private configuration routine, which is not part of this model.
- The `UnrecognizedOptions` exception (prospector/tools/pylint/linter.py:9-12) is declared but never raised in these files.
- `PyLinter.__init__` and pylint's own `_expand_files` are foreign code. The expansion is an input value, and its shape is assumed to match the installed version, because that is what pylint guarantees.
- Version parsing by `packaging` is not modelled. A version is three release numbers; pre-release, post-release and local version tags are left out.
- `pathlib.Path` conversion is left out. Paths are plain strings, and `is_excluded` receives the same string that keys the result.
- PylintLinter.ProspectorLinter.ExpandFiles: for the mapping shape the result is a Dafny `map`, so the iteration order of the Python `dict` it returns is not captured. The order is captured for the sequence shape (`FilterRecordsKeyOrder`).
- Errors raised by `is_excluded` or by the file system are not modelled; `isExcluded` is a total function.
- `CaptureStream`'s inheritance from `TextIOWrapper` is left out. Only the `contents` buffer is modelled.
- The real console streams are opaque objects (`object?`). Writes that reach them when `hide` is off are not modelled.
- Python exceptions raised inside a `with` block are not modelled. `CaptureScope` calls `Exit` after the body unconditionally, as `with` does.
- The swap of the process-wide handles is not thread-safe in the source; concurrency is not modelled.
- `__enter__` returns `self`; `Enter` returns nothing, since the caller already holds the object.
