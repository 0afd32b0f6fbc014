# Comment-preserving JSON sort, modelled in Dafny

This project models `my/cli/json/sort_file.py`, the command that sorts a list inside a
JSON-with-`//`-comments file (a VS Code `launch.json`, say) by a dotted key and writes the
file back with its comment lines intact. The program runs in four stages, and each has a
module section here:

- **Sanitiser.** Every full-line comment is replaced by a placeholder that starts with a
  fresh UUID. Each replaced line is recorded as a `Substitution`, filed by id and by line
  index. This is `SortFile.Sanitise`, specified by `SortFile.Sanitised`.
- **Repair loop.** The text is parsed. When the parse fails, the line number is read out
  of the error text and the placeholder on that line is patched:
  - `Unexpected ","` rebuilds it from the comment with `as_kvp` set: `"id": null,` when
    the comment's body is not a JSON string, otherwise its string placeholder again,
    dropping any comma an earlier repair put in front;
  - `Unexpected """` puts a comma in front of it.

  The parse is then retried. This is `SortFile.RepairLoop`, specified by `SortFile.Repair`,
  which is the generic `SortFile.Iterate` applied to the one-pass function
  `SortFile.RepairStep`.
- **Sort.** The list at a dotted path (missing keys read as `{}`) is sorted stably by the
  case-folded text of a dotted key. This is `SortFile.SortListInPlace` over the
  array-based insertion sort `StableSorting.SortInPlace`, specified by the function
  `StableSorting.StableSort`.
- **Reversal.** The document is serialised. Every line that starts with `"` and a known id
  is replaced by the original comment line. This is `SortFile.ReverseSubstitutions`,
  specified by `SortFile.RestoredLines`.

`SortFile.Run` is `main`. It is proved equal to the function `SortFile.Pipeline`. It
returns the text `write_text` would receive, or a `NoWrite` reason for returning (or
crashing) without writing.

The parser `json5.loads` and the serialiser `json.dumps(data, indent=2).splitlines()` are
parameters (`loads`, `dumps`). The ids `uuid7()` would draw are a parameter `ids`. The
number of parse attempts allowed is a parameter `fuel`.

Modules:
- `Wrappers`: `Option` and `Result`.
- `Text`: the ASCII behaviour of Python's `str` methods that the program uses.
- `Uuid`: canonical ids and the `UUID_ON_LINE` pattern.
- `JsonValue`: the parsed document, `_get_by_path`, `str()`.
- `StableSorting`: `list.sort` with a key.
- `SortFile`: everything else.

Two places where the code does something other than what one would expect from its
comments and its design. The model follows the code in both.

- **The repair loop is not bounded by the number of comments.** Among failures that
  carry a line number, it stops only when the same line fails twice in a row (lines
  46-48). A parser whose error alternates between
  two placeholder lines keeps the loop rewriting for ever.
  `SortFile.AlternatingFailuresNeverSettle` proves this through `main` itself: on a
  two-line file of comments, sanitised into two placeholders, against a parser that
  blames line 1 or line 2 by the parity of the text's length, the loop is still running
  after any number of attempts and nothing is written. Each pass adds a comma, which
  flips that parity.
- **The first parse failing with no line number does not report the error.** There
  `_try_load` gives up at once (`None == None`, line 46), the loop body never runs, and
  line 144 reads `error_msg` before it was ever assigned (UnboundLocalError). The model
  returns `ErrorMsgUnbound` / `UnboundErrorMessage` (`SortFile.FirstFailureWithoutLine`).
  After a first failure, a failure with no line number does report its message, unless
  the message is empty: then "No data loaded" is reported instead (lines 127, 144, 148).

Also, the quote repair puts the comma in front of the failed line itself, not the line
before it (line 140).

## Model

| member | source | states |
|---|---|---|
| SortFile.CommentedLineIff | my/cli/json/sort_file.py:82-84 | a line is a comment exactly when it is some whitespace followed by `//` (both directions) |
| SortFile.CommentBodyOf | my/cli/json/sort_file.py:89 | of a line `ws` + slashes + `ws'` + rest, the three `lstrip`s keep exactly `rest` |
| SortFile.InjectSubstitution | my/cli/json/sort_file.py:87-96 | every placeholder starts with `"` followed immediately by the id |
| SortFile.InjectShapes | my/cli/json/sort_file.py:89-96 | for a comment written as indentation, slashes, indentation and `rest`: a `rest` that starts with `"` keeps its text behind `"` + id; any other `rest` is dropped for `"id": null,` (key/value) or `"id",` |
| SortFile.InjectedIdFound | my/cli/json/sort_file.py:87-96 | an indented placeholder is matched by `UUID_ON_LINE`, and the match yields the id it was built from |
| SortFile.Sanitised | my/cli/json/sort_file.py:105-112 | the sanitised text has as many lines as the input, and every line-index key is an index of it |
| SortFile.Sanitise | my/cli/json/sort_file.py:105-112 | the loop's `new_lines`, `subs` and `subs_by_line_idx` are those of `Sanitised` (invariant: the tables of the prefix read so far) |
| SortFile.SanitisedLine | my/cli/json/sort_file.py:106-112 | a non-comment line passes unchanged and has no entry; comment line i has the entry (its id, its exact text, i) and its line is the placeholder for that id |
| SortFile.SanitisedById | my/cli/json/sort_file.py:108-110 | the ids filed are exactly the ids handed out; each entry is a comment line of the input, filed under its own id and at its index in the line table |
| SortFile.SanitisedLineById | my/cli/json/sort_file.py:108-110 | with distinct ids, the entry of every comment line is reachable by `subs[id]` as well as by `subs_by_line_idx[i]` |
| SortFile.FindTagFindsFirst | my/cli/json/sort_file.py:34 | the search returns the first position of `<string>:` followed by a digit, and nothing only when there is none |
| SortFile.LineIdxFromError | my/cli/json/sort_file.py:30-37 | a line index read from a message is at least -1 (the number minus one) |
| SortFile.LineIdxFromErrorNone | my/cli/json/sort_file.py:34-37 | no line index exactly when no `<string>:` in the message is followed by a digit |
| SortFile.LineIdxAtFirstTag | my/cli/json/sort_file.py:34-36 | the index is the value of the whole digit run after the first such tag, minus one |
| SortFile.LineIdxOfParserMessage | my/cli/json/sort_file.py:31-36 | a message `<string>:N ...` gives back N - 1 |
| SortFile.TryLoad | my/cli/json/sort_file.py:40-49 | no error means a document; giving up happens only on a failure whose line index equals the previous one |
| SortFile.Repaired | my/cli/json/sort_file.py:130-140 | a repair keeps the line count, changes no line but the failed one, and changes nothing when the failed line holds no placeholder or the message names neither an unexpected `,` nor an unexpected `"` |
| SortFile.RepairStep | my/cli/json/sort_file.py:124-140 | a successful parse ends the loop with its document; going round again means a non-empty message with a new line index, and lines that differ only at placeholders |
| SortFile.RepairLoop | my/cli/json/sort_file.py:123-140 | the while loop, updating `new_lines` in place, ends with the outcome of `Repair` |
| SortFile.IterateFuelMonotone | my/cli/json/sort_file.py:124 | once the loop has ended, allowing more attempts changes nothing |
| SortFile.RepairFuelMonotone | my/cli/json/sort_file.py:124-140 | an outcome the repair loop reaches is the same under any larger number of attempts |
| SortFile.RepairStops | my/cli/json/sort_file.py:124-128 | the loop ends with the document on a successful parse, with the previous message when the same line fails again, and with the message when a later failure has no line number |
| SortFile.FirstFailureWithoutLine | my/cli/json/sort_file.py:44-48 | a first failure with no line number leaves `error_msg` unbound |
| SortFile.LoadedFromPatchedPlaceholders | my/cli/json/sort_file.py:124-140 | a loaded document is the parse of a text that differs from the sanitised one only on placeholder lines |
| SortFile.LoadedThroughPasses | my/cli/json/sort_file.py:124-140 | any loop whose every pass keeps lines the same outside placeholders, and ends with a document only on an accepted parse, loads only the parse of such a text |
| SortFile.CommaRepairStep | my/cli/json/sort_file.py:130-137 | `Unexpected ","` on a placeholder line rebuilds it from the original comment with `as_kvp` set, and the loop goes on |
| SortFile.KvpKeepsStrings | my/cli/json/sort_file.py:90-95 | `as_kvp` makes no difference when the comment's body is a JSON string, so the comma repair then gives back the string placeholder |
| SortFile.QuoteRepairStep | my/cli/json/sort_file.py:138-140 | `Unexpected """` (and no `Unexpected ","`) on a placeholder line puts a comma in front of it and the loop goes on |
| SortFile.IterateNeverStops | my/cli/json/sort_file.py:124 | a loop whose step always goes round again within an invariant never ends, however many passes it is allowed |
| SortFile.AlternationNeverSettles | my/cli/json/sort_file.py:124-140 | against any parser that alternates its blamed line between two placeholder lines, the loop never ends |
| SortFile.AlternatingFailuresNeverSettle | my/cli/json/sort_file.py:123-140 | `main` on a file of two comment lines, against a parser that alternates the line it blames, is still repairing after any number of attempts and writes nothing |
| JsonValue.Lookup | my/cli/json/sort_file.py:54 | `d.get(key)` is nothing exactly when no member has the key, and otherwise the value of a member with that key |
| JsonValue.LookupPath | my/cli/json/sort_file.py:52-55 | the for loop over the path segments computes `GetByPath` |
| JsonValue.EmptyObjectAbsorbs | my/cli/json/sort_file.py:54 | below a missing key every lookup gives `{}` |
| JsonValue.ListAtPathIsInDocument | my/cli/json/sort_file.py:156-157 | a list found at the path is reached through keys that are all present |
| JsonValue.Replace | my/cli/json/sort_file.py:161 | replacing a member keeps the keys and their order, gives the new value under its key and leaves every other key's value |
| JsonValue.GetAfterSet | my/cli/json/sort_file.py:161 | reading the path back after the in-place update gives the value written |
| JsonValue.SetElsewhere | my/cli/json/sort_file.py:161 | after the in-place update, a path that parts from the written one at some segment reads what it read before |
| JsonValue.SetOffPath | my/cli/json/sort_file.py:161 | the same for every path that leaves the written one |
| SortFile.SortKeyDefaults | my/cli/json/sort_file.py:59-63 | an element that is not a dict sorts under `""`; a dict missing the first key segment sorts under `{}` |
| SortFile.SortListInPlace | my/cli/json/sort_file.py:58-65 | when every key is defined the array becomes the stable sort of its old contents, otherwise it is unchanged |
| StableSorting.SortInPlace | my/cli/json/sort_file.py:65 | the in-place sort leaves the array equal to `StableSort` of its old contents |
| StableSorting.StableSortCorrect | my/cli/json/sort_file.py:65 | the result is ordered by key, a permutation of the input, and keeps the relative order of equal keys |
| StableSorting.SortedUnique | my/cli/json/sort_file.py:65 | those three properties determine the result: two ordered arrangements with the same per-key order are equal |
| StableSorting.SortSortedIsIdentity | my/cli/json/sort_file.py:65 | sorting a list already sorted by the key leaves it unchanged |
| SortFile.SortDocumentSorts | my/cli/json/sort_file.py:148-161 | falsy data, a top level that is not a dict and a non-list at the path each give their failure; on success the list at the path is sorted, a permutation, and stable, and every value off the path is unchanged |
| SortFile.RestoreLine | my/cli/json/sort_file.py:72-78 | a serialised line is kept or becomes the original line of a substitution; it changes only when `UUID_ON_LINE` matches it with an id that names a substitution, and then it becomes that substitution's original line |
| SortFile.RestoreQuoted | my/cli/json/sort_file.py:73-77 | an indented `"` followed by 36 characters: restored to the original line when they fit the UUID pattern in either case and name a substitution, kept when they are malformed or name none |
| SortFile.RestoreQuotedId | my/cli/json/sort_file.py:73-77 | a line that is indentation, `"` and a known id becomes that substitution's original line |
| SortFile.ReverseSubstitutions | my/cli/json/sort_file.py:68-79 | the loop's output is the newline-join of the serialised lines, each restored |
| SortFile.CommentRoundTrip | my/cli/json/sort_file.py:87-96 | every comment line of the input, sanitised (or rebuilt with `as_kvp` set) and indented, is restored byte for byte |
| SortFile.RestoredLinesShape | my/cli/json/sort_file.py:70-79 | one output line per serialised line, each either that line or a comment line of the input |
| SortFile.PipelineWrites | my/cli/json/sort_file.py:144-172 | no write on a remaining load error, on falsy data, on a non-dict top level or on a non-list at the path; a write happens exactly when loading and sorting succeed, with the restored serialisation of the sorted document |
| SortFile.Run | my/cli/json/sort_file.py:99-172 | `main` gives the outcome of `Pipeline` |
| Text.LStripByStripsPrefix | my/cli/json/sort_file.py:84 | `lstrip` keeps a suffix, every dropped character is a stripped one, and the first kept one is not |
| Text.LStripBySkips | my/cli/json/sort_file.py:89 | a prefix made only of stripped characters makes no difference to `lstrip` |
| Text.ContainsIffOccurs | my/cli/json/sort_file.py:131 | `pat in s` holds exactly when `pat` occurs at some position of `s` |
| Text.SplitOn | my/cli/json/sort_file.py:53 | `split(".")` gives at least one part, no part holds a dot, and joining the parts gives back the path |
| Text.SplitJoin | my/cli/json/sort_file.py:53 | splitting a join of dot-free parts gives the parts back |
| Text.Casefold | my/cli/json/sort_file.py:62 | `casefold` keeps the length and lower-cases each ASCII letter |
| Text.DigitPrefix | my/cli/json/sort_file.py:34 | `\d+` takes the longest run of digits at the front |
| Text.DecimalRoundTrip | my/cli/json/sort_file.py:36 | `int(str(n)) == n` |
| Uuid.LowerCaseIsCanonical | my/cli/json/sort_file.py:74 | a string the UUID pattern matched, lower-cased, is a canonical id |
| Uuid.Canonicalise | my/cli/json/sort_file.py:74 | `uuid.UUID(s)` printed back is `s` in lower case |
| Uuid.CanonicalIsFixed | my/cli/json/sort_file.py:74 | a canonical id matches the pattern and is its own canonical form |
| Uuid.MatchQuoted | my/cli/json/sort_file.py:13-15 | an indented `"` and 36 characters match exactly when the characters fit the pattern, in either case, and yield them in lower case |
| Uuid.MatchFindsQuotedId | my/cli/json/sort_file.py:13-15 | an indented line that starts with `"` and a canonical id matches, yielding that id |
| Uuid.NoQuoteNoMatch | my/cli/json/sort_file.py:13-15 | a line whose first non-blank character is not `"`, or with fewer than 36 characters after it, does not match |

## Left out

- File I/O is not modelled. `SortFile.Run` takes the lines `read_text().splitlines()` would give and returns the text `write_text` would receive. A crash before line 172 and an early return both end in a `NoWrite`.
- The `cli.VERBOSE` prints (lines 115-121, 163-165, 169-170) are left out: they change no state. `original_line_num` is used only there, so it is left out too.
- `json5.loads` and `json.dumps` are foreign code and are parameters. The model does not derive which error message a text produces, nor which lines a document serialises to.
- `uuid7()` is a parameter `ids`. Its time ordering is not modelled. Distinctness (`SortFile.DistinctIds`) is assumed only where the round trip needs it.
- Unicode is not modelled. `isspace`, `casefold`, `\d` and `repr` are modelled on ASCII; other characters are treated as neither space nor digit and are not case-folded.
- Floating-point numbers in documents are not modelled: `JsonValue.Value` has integer numbers only, so `str()` of a float is not covered.
- A dict with a repeated key is not modelled: `loads` is assumed to give a dict's keys once each, and `JsonValue.Lookup` takes the first.
- Non-termination is not modelled directly. A run that never stops is represented by the loop running out of `fuel` (`StillRepairing`, reported as `RepairUnsettled`); the source would never return.
- Aliasing is not modelled: `_sort_in_place` sorts the list object that sits inside `data`. The model sorts an array copy and writes it back at the same path with `JsonValue.SetByPath`.
- Exceptions are not modelled as exceptions: the AttributeError of `_get_by_path` on a non-dict step and the UnboundLocalError of `error_msg` become `NoWrite` values.
- SortFile.Repaired also checks that the failed index is an index of the lines. For the tables the sanitiser builds this always holds (`SortFile.IndicesIn`, required by `SortFile.RepairLoop`); the check only makes the function total.
- SortFile.RestoreLine: its contract says a line is kept, or replaced by the original line of the substitution `UUID_ON_LINE` finds on it. The shapes of line behind each case are given by `SortFile.RestoreQuoted` (indentation, `"`, 36 characters) and `Uuid.NoQuoteNoMatch` (everything else).
- Byte-identical output when an already sorted file is sorted again is not modelled: it depends on the parser and serialiser. Only the list part is proved (`StableSorting.SortSortedIsIdentity`).
