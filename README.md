# Infra-Automation provisioning simulator, modelled in Dafny

This project models the core of the Infra-Automation provisioning simulator in Dafny. The core is three parts:

- the `Machine` record with its validation on construction;
- the interactive collector `get_vm_details` with its three prompt helpers;
- the main script, which saves the collected machines, runs the service installer and brackets the session with log events.

Modules, one per concern:

- `Machines` (`src/machine.py`) holds the OS table and the ranges. It also holds the all-or-nothing constructor `NewMachine` and `ToDict`.
- `InputHelpers` (`src/input_helpers.py`) models the console as a finite sequence of input lines read through a cursor. Running out of lines is an explicit end of input; this is where Python's `input()` would raise `EOFError`.
  - Each prompt helper is a method with a `while` loop. It is proved equal to a specification function over the same lines.
  - `GetVmDetails` is a loop proved equal to the recursive specification `Collect`. Its body is one call of `VisitName` per name line, which hands a fresh name on to `AddRecord`. Its result is proved sound: every machine is valid, no name appears twice, and no name is the sentinel `done`.
- `InfraSimulator` (`infra_simulator.py`) covers the rest of the script:
  - what `save_instances` writes, as data;
  - how `run_installer` filters the installer's output and reads its exit code;
  - every branch of the `__main__` block, as a `Session` value: its log, the saved files and the installer outcome.
- `Log` records what the program logs as `(level, tag)` events instead of formatted text.
- `Text` models the Python string operations the program uses. `strip`, `lower` and `int()` are applied to console input, `rstrip` to installer output, and `str()` and `"\n".join` to the text file. `split` is not called by the program; it is modelled only to read the text file back, one line per machine.
- `Wrappers` holds `Option` and `Result`.

For the OS prompt, the code accepts an exact key first. Otherwise it takes the first key, in table order, that the non-empty answer is a prefix of. The model keeps this first-match rule. With the two keys `ubuntu` and `centos`, no answer can be a prefix of both, because the keys start with different letters (`PrefixMatchIsUnique`, `AllowedOsesHaveDistinctInitials`). So the first match is always the only match.

## Model

| member | source | states |
|---|---|---|
| Machines.AllowedOsesShape | src/machine.py:4-7 | The OS table has exactly the two entries ubuntu→Ubuntu and centos→CentOS, in that order. Each key is the lower-case form of its value, and the keys start with different letters. |
| Machines.NewMachine | src/machine.py:17-25 | Construction succeeds exactly when the record is valid, and then holds the given fields. Otherwise it reports a rule the fields break, and no rule checked earlier (name, os, cpu, ram_gb) is broken. |
| Machines.RefusedIffSomeRuleBroken | src/machine.py:17-25 | A record is refused if and only if some validation rule is broken. |
| Machines.SingleViolationReported | src/machine.py:18-25 | When exactly one rule is broken, that rule is the error raised. |
| Machines.OsCheckIsCaseSensitive | src/machine.py:20-21 | The OS check compares with the canonical values: `ubuntu` and `centos` are refused, `Ubuntu` and `CentOS` are accepted. |
| Machines.RangeBoundaries | src/machine.py:22-25 | cpu accepts 1 and 64 and refuses 0 and 65; ram_gb accepts 1 and 512 and refuses 0 and 513. |
| Machines.ToDict | src/machine.py:27-33 | The mapping has exactly the keys name, os, cpu, ram_gb, in that order. Each key holds its field unchanged. |
| Machines.ToDictInjective | src/machine.py:27-33 | Two machines with equal mappings are equal: the mapping loses nothing. |
| Text.RStrip | infra_simulator.py:75 | Defines `line.rstrip()` as repeatedly dropping a trailing white-space character. `RStripRemovesTrailingSpace` states its properties. |
| Text.Strip | src/input_helpers.py:45 | Defines `str.strip()` as `lstrip` followed by `rstrip`. `StripIsInnerPiece` and `StripIdempotent` state its properties. |
| Text.Lower | src/input_helpers.py:46 | Defines `str.lower()` character by character, for ASCII letters (see Left out). |
| Text.Join | infra_simulator.py:54 | Defines `"\n".join(parts)`: the parts with one separator between neighbours. `SplitJoin` states its inverse. |
| Text.LStripRemovesLeadingSpace | src/input_helpers.py:45 | Left stripping removes exactly the longest run of leading white space and keeps the rest as a suffix. |
| Text.RStripRemovesTrailingSpace | infra_simulator.py:75 | Right stripping removes exactly the longest run of trailing white space and keeps the rest as a prefix. |
| Text.StripIsInnerPiece | src/input_helpers.py:45 | A stripped string is the slice of the original after its leading white space. Only white space surrounds it, and it has none at either end. |
| Text.StripUnchanged | src/input_helpers.py:45 | A string with no white space at either end is left unchanged by stripping. |
| Text.StripIdempotent | src/input_helpers.py:7-9 | Stripping twice is stripping once, so an accepted answer is already in stripped form. |
| Text.ParseInt | src/input_helpers.py:27 | `int(raw)` gives a value if and only if the string is decimal digits with an optional `-` or `+`. The value is that of the digits, negated after `-`. Anything else, such as a unit suffix, is `ValueError`. |
| Text.NatToString | infra_simulator.py:54 | `str(n)` is canonical decimal digits whose value is `n`: it has no leading zero, except for `0` itself. |
| Text.CanonicalDecimalIsNatToString | infra_simulator.py:54 | Canonical digits with value `n` are exactly `str(n)`: there is one canonical spelling. |
| Text.IntToString | infra_simulator.py:54 | `str(i)` parses back to `i` and is canonical: no leading zero, no `+`, no `-0`, and only digits and `-`. |
| Text.CanonicalIntIsIntToString | infra_simulator.py:54 | A canonical string that parses back as `i` is exactly `str(i)`. |
| Text.SplitJoin | infra_simulator.py:54 | Splitting a `"\n".join` on line breaks gives back the parts, when no part holds a line break. |
| InputHelpers.KeyIndex | src/input_helpers.py:15-16 | `raw in ALLOWED_OSES`: the position found holds the key `raw`; when none is found, no key equals `raw`. |
| InputHelpers.FirstPrefixIndex | src/input_helpers.py:17 | The `next(...)` generator returns the first key that starts with `raw`. No earlier key does; when none is found, no key does. |
| InputHelpers.PrefixMatchIsUnique | src/input_helpers.py:15-19 | When keys have distinct initials, a non-empty answer is a prefix of at most one key. |
| InputHelpers.AllowedOsesHaveDistinctInitials | src/machine.py:4-7 | The OS keys are non-empty and start with different letters. |
| InputHelpers.ResolveOs | src/input_helpers.py:15-19 | A resolved answer is always a canonical OS value. |
| InputHelpers.ResolveOsAcceptsExactlyPrefixes | src/input_helpers.py:15-19 | An answer is accepted if and only if it is a non-empty prefix of some key, and it then resolves to that key's canonical value. |
| InputHelpers.ResolveOsExamples | src/input_helpers.py:15-19 | `ubuntu`, `cent` and `u` resolve to Ubuntu, CentOS and Ubuntu. |
| InputHelpers.ResolveOsRejectionExamples | src/input_helpers.py:17-21 | The empty answer, `debian` and `ubuntu22` are rejected. |
| InputHelpers.NonEmptyStep | src/input_helpers.py:7-10 | An accepted answer is non-empty text. |
| InputHelpers.OsStep | src/input_helpers.py:14-21 | An accepted answer is a canonical OS value. |
| InputHelpers.IntStep | src/input_helpers.py:25-36 | An accepted answer is an integer in `min_v..max_v`. |
| InputHelpers.NonEmptyStepAcceptsNonBlank | src/input_helpers.py:7-10 | A line is accepted if and only if it is not blank, as its stripped text; otherwise an empty-value warning is logged. |
| InputHelpers.OsStepAcceptsPrefixesOfKeys | src/input_helpers.py:14-21 | After stripping and lower-casing, a line is accepted if and only if it is a non-empty prefix of some key, and then it gives that key's value. A rejection logs the lower-cased answer. |
| InputHelpers.IntStepRejections | src/input_helpers.py:25-36 | A line is accepted if and only if it parses to an integer in range. A non-integer gets the "invalid input" warning, and an integer out of range gets the "out-of-range" warning with the value and the bounds. |
| InputHelpers.UnitSuffixIsNotAnInteger | src/input_helpers.py:26-36 | `4GB` is reported as not an integer, while `513` for RAM is reported as out of range. |
| InputHelpers.AskFrom | src/input_helpers.py:6-36 | Defines the shared retry loop over the verdicts on the lines: accept at the first accepting line, warn once per rejected line, and stop at the end of input. The lemmas below state its properties. |
| InputHelpers.AskSpec | src/input_helpers.py:6-36 | Defines one prompt asked from a cursor, as `AskFrom` over `Judge`'s verdict on each line. The `Ask*` methods are proved equal to it. |
| InputHelpers.AskFromAnswer | src/input_helpers.py:6-9 | The retry loop answers with the verdict that accepted. That verdict lies at or after the cursor, and the cursor moves just past it. |
| InputHelpers.AskSpecAnswer | src/input_helpers.py:6-9 | An answer comes from the input line the prompt accepted, at or after the cursor, and the cursor moves just past that line. |
| InputHelpers.AskSpecAnswerFits | src/input_helpers.py:5-36 | Every answer fits its prompt: non-empty text, a canonical OS, or an integer in range. The cursor moves forward. |
| InputHelpers.FirstLineAccepted | src/input_helpers.py:24-29 | A line accepted at the first attempt answers the prompt at once, with no warning. |
| InputHelpers.AskSpecRejects | src/input_helpers.py:6-10 | A rejected line adds its one warning, and the prompt is asked again from the next line. |
| InputHelpers.AskFromLogsEachRejection | src/input_helpers.py:6-10 | Every verdict before the accepted one, or before the end of input, is a rejection. Each rejection adds exactly one warning, in order. |
| InputHelpers.AskSpecLogsEachRejection | src/input_helpers.py:12-21 | Every line before the accepted one was rejected, and the warnings are exactly those rejections' warnings, in order. |
| InputHelpers.AskNonEmpty | src/input_helpers.py:5-10 | The loop computes the retry specification. An answer is non-empty, already stripped text. |
| InputHelpers.AskChoiceOs | src/input_helpers.py:12-21 | The loop computes the retry specification. An answer is a canonical OS value. |
| InputHelpers.AskIntRange | src/input_helpers.py:23-36 | The loop computes the retry specification. An answer is an integer with `min_v <= v <= max_v`. |
| InputHelpers.NamesAppend | src/input_helpers.py:66-67 | Appending a machine adds exactly its name to the seen names. |
| InputHelpers.NamesHoldsEveryName | src/input_helpers.py:51 | The name of every collected machine is among the seen names. |
| InputHelpers.NamesHoldsOnlyMachineNames | src/input_helpers.py:51 | Every seen name is carried by some collected machine. With the previous row, `seen_names` is exactly the set of the machines' names. |
| InputHelpers.SoundAppend | src/input_helpers.py:51-67 | Appending a valid machine whose name is fresh and is not the sentinel keeps the list valid and free of duplicates. |
| InputHelpers.IsSentinel | src/input_helpers.py:45-46 | Defines the sentinel test: the stripped name, lower-cased, equals `done`. |
| InputHelpers.CollectFrom | src/input_helpers.py:44-69 | Defines the loop of `get_vm_details` from a cursor: the branches for sentinel, empty name, duplicate name, record and construction, in the source's order. |
| InputHelpers.Collect | src/input_helpers.py:39-72 | Defines `get_vm_details` on the whole input: the start event, then `CollectFrom` from line 0 with no machines. |
| InputHelpers.ReadRecord | src/input_helpers.py:55-60 | The three field prompts together consume at least three lines and stay within the input. |
| InputHelpers.RecordAlwaysBuilds | src/input_helpers.py:55-64 | When all three fields are answered, construction never fails, because the prompts accept only values the constructor accepts. The machine carries the given name and is valid. |
| InputHelpers.ReadFields | src/input_helpers.py:55-60 | The field prompts followed by the construction compute the record specification. A built machine carries the name. |
| InputHelpers.GetVmDetails | src/input_helpers.py:39-72 | The loop computes `Collect`. A finished entry is sound: every machine is valid, names are distinct, and none is `done`. The entry stopped on a sentinel line of the input. |
| InputHelpers.SentinelStep | src/input_helpers.py:45-47 | At the sentinel, the whole entry is the current list, followed by the "finished" event with its count. |
| InputHelpers.SkipStep | src/input_helpers.py:48-53 | An empty or repeated name adds one warning and moves on one line, with the list unchanged. |
| InputHelpers.RecordStep | src/input_helpers.py:55-69 | After a fresh name, one of three things happens. The end of input ends the entry. A built machine is appended and logged. A failed construction is logged and the record discarded. |
| InputHelpers.VisitName | src/input_helpers.py:44-69 | One pass of the loop on a name line keeps the loop invariant `Collect(lines) == Logged(log, CollectFrom(lines, pos, vms))` with the seen set equal to the names of the list. A pass that ends the entry returns exactly `Collect(lines)`. A finished entry stopped on a sentinel line. |
| InputHelpers.AddRecord | src/input_helpers.py:55-69 | After a fresh name, the field prompts and the construction keep the same loop invariant, with the name added to the seen set only when the machine is appended. The end of input on the way returns exactly `Collect(lines)`. |
| InputHelpers.CollectSound | src/input_helpers.py:39-72 | Whatever the collector returns is sound, and it stopped on a line of the input. |
| InputHelpers.CollectFromSound | src/input_helpers.py:44-69 | From any sound list, the machines collected before stay first and in order. The result is sound. |
| InputHelpers.SkippedNameSound | src/input_helpers.py:48-53 | An empty or repeated name keeps the result sound and keeps the machines collected before. |
| InputHelpers.RecordSound | src/input_helpers.py:55-69 | A fresh name keeps the result sound and keeps the machines collected before. |
| InputHelpers.RejectedNameSkipsOneLine | src/input_helpers.py:48-53 | An empty or repeated name costs one line and one warning. No field is asked for. |
| InputHelpers.FreshNameComesNext | src/input_helpers.py:55-69 | A fresh name whose fields are answered becomes the next machine in the list, under that name. |
| InputHelpers.SentinelEndsEntry | src/input_helpers.py:45-47 | `done`, in any case, ends the entry at once and logs the number of machines. |
| InputHelpers.FreshNameStep | src/input_helpers.py:55-69 | A fresh name and its record end the entry, append the built machine, or discard a failed construction, with the matching log event. |
| InputHelpers.JudgeWarnsWithEntryEvent | src/input_helpers.py:10-36 | Every rejection of a prompt warns with an entry event. |
| InputHelpers.AskSpecLogsEntryEvents | src/input_helpers.py:5-36 | A prompt logs only entry events. |
| InputHelpers.RecordLogsEntryEvents | src/input_helpers.py:55-57 | The three field prompts of a record log only entry events. |
| InputHelpers.CollectFromLogsEntryEvents | src/input_helpers.py:44-71 | From any cursor, the collector's loop logs only entry events. |
| InputHelpers.CollectLogsOnlyEntryEvents | src/input_helpers.py:39-72 | Everything `get_vm_details` logs is an entry event: it never reports on saving or on the installer. |
| InputHelpers.WellFormedBlockAddsMachine | src/input_helpers.py:55-69 | A fresh name followed by three fields, each accepted at the first attempt, adds exactly that machine and logs only its addition. |
| InputHelpers.AcceptedFieldsMakeRecord | src/input_helpers.py:55-57 | Three field lines, each accepted at the first attempt, give a record of exactly those values, with no warning, ending three lines on. |
| InfraSimulator.JsonPayload | infra_simulator.py:49 | The JSON payload has one `to_dict` mapping per machine, in order. |
| InfraSimulator.JsonPayloadInjective | infra_simulator.py:49 | Equal payloads come from equal machine lists. |
| InfraSimulator.TextLineFields | infra_simulator.py:54 | A text line is the name, a colon, the OS, the cpu with `vCPU` and the RAM with `GB RAM`, separated by bars. Its two numbers are spelled canonically and parse back to the machine's cpu and ram_gb. |
| InfraSimulator.TextLineSpellsNumbersCanonically | infra_simulator.py:54 | For any canonical spellings of cpu and ram_gb, the line is exactly the f-string layout filled with those spellings. This rules out forms such as `02` or `+2`. |
| InfraSimulator.TextLine | infra_simulator.py:54 | Defines one line of the text file: the name, a colon, the OS, then the cpu and the RAM rendered by `str()` with their units, separated by bars. `TextLineFields` and `TextLineSpellsNumbersCanonically` state its properties. |
| InfraSimulator.TextLineHasNoNewline | infra_simulator.py:54 | A valid machine whose name has no line break gives a text line with no line break. |
| InfraSimulator.TextLines | infra_simulator.py:54 | There is one text line per machine, in order. |
| InfraSimulator.TextBodyHasOneLinePerMachine | infra_simulator.py:53-55 | Splitting the text file on line breaks gives exactly one line per machine, in order, with no trailing empty line. |
| InfraSimulator.TextBody | infra_simulator.py:53-55 | Defines the text file's contents as the text lines joined by line breaks. `TextBodyHasOneLinePerMachine` states its properties. |
| InfraSimulator.Save | infra_simulator.py:48-56 | Defines what `save_instances` writes: the JSON payload and the text body. |
| InfraSimulator.ForwardedOutput | infra_simulator.py:74-77 | Defines the events the streaming loop logs for the installer's whole output. |
| InfraSimulator.ForwardedOutputAppend | infra_simulator.py:74-77 | Forwarding works line by line: two chunks of output forward as the first followed by the second. |
| InfraSimulator.ForwardedOutputShape | infra_simulator.py:74-77 | Each forwarded event is an info-level installer message that is non-empty and has no trailing white space. There are no more events than lines. |
| InfraSimulator.ForwardSingleLine | infra_simulator.py:75-77 | A line is forwarded if and only if it is not blank after `rstrip`. |
| InfraSimulator.InstallerResult | infra_simulator.py:60-85 | The installer succeeds if and only if the script exists and the exit code is 0. It fails, carrying the code, if and only if the script exists and the code is non-zero. It ends with `FileNotFoundError` if and only if the script is missing. |
| InfraSimulator.InstallerLogShape | infra_simulator.py:60-85 | A missing script is reported, and nothing is started or forwarded. A present script is announced first, and the last event is "completed" if and only if the exit code is 0; otherwise it is the failure with that code. |
| InfraSimulator.InstallerLog | infra_simulator.py:60-85 | Defines what `run_installer` logs: the missing-script error; or the running event, the forwarded output, then success or the failure with its code. |
| InfraSimulator.RunInstaller | infra_simulator.py:60-85 | The streaming loop computes the installer's log and outcome. |
| InfraSimulator.ProvisionedEvents | infra_simulator.py:94-95 | There is one "Provisioned VM" event per machine, carrying its `to_dict`, in order. |
| InfraSimulator.LogProvisioned | infra_simulator.py:94-95 | The loop appends exactly the provisioned events to the log. |
| InfraSimulator.AfterInstaller | infra_simulator.py:97-106 | Defines what the main script logs after `run_installer`: nothing on success, the failure again on `CalledProcessError`, and an unexpected error for `FileNotFoundError`. |
| InfraSimulator.SessionFrom | infra_simulator.py:88-108 | Defines the whole session once `get_vm_details` has ended: end of input, nothing entered, or save, provision and install. The lemmas below state its properties. |
| InfraSimulator.SessionIsBracketed | infra_simulator.py:88-108 | Every session log starts with the logger-ready and session-start events and ends with the session-end event, whatever happened in between. |
| InfraSimulator.SavedExactlyWhenMachinesEntered | infra_simulator.py:92-102 | Files are saved, and the installer is run, if and only if at least one machine was collected. The saved files hold those machines. |
| InfraSimulator.NothingEnteredRunsNothing | infra_simulator.py:101-102 | For any input that ends the entry with no machines, the session logs "nothing to save", saves nothing, and never starts or looks for the installer. |
| InfraSimulator.InstallerFailureIsCaught | infra_simulator.py:97-100 | A non-zero exit code is logged by `run_installer` and again by the handler, and the session still ends normally. |
| InfraSimulator.InputEndSavesNothing | infra_simulator.py:105-108 | End of input during entry saves nothing. It reaches the unexpected-error handler just before the session ends. |
| InfraSimulator.RunSession | infra_simulator.py:88-108 | The script computes the session specification from the input lines and the installer. |
| InfraSimulator.FinishSession | infra_simulator.py:92-108 | From the return of `get_vm_details` on, the script computes the session specification, including the handlers that turn exceptions into log events. |

## Left out

- The logger set-up in `src/logger.py` (handlers, formats, the log file) is not part of this model. Log messages are tags with their arguments rather than formatted text, and that includes the `[INSTALLER] ` prefix.
- The file system is left out: the paths, `mkdir`, the `sys.path` insertion, and the actual writing of `instances.json` and `instances.txt`. The JSON indentation and `ensure_ascii` settings are left out too. `save_instances` is modelled by the data it would write.
- I/O errors while saving are left out, even though they would reach the `except Exception` handler.
- The child process is not modelled. The `Popen` call, concurrent streaming and `wait()` are replaced by a value: whether the script exists, the lines it prints, and its exit code.
- `KeyboardInterrupt` (the operator pressing Ctrl-C) is left out because it is an asynchronous signal. Its handler only logs a warning before the session end.
- `Text.ParseInt`: Python's `int()` also accepts underscores between digits and non-ASCII decimal digits. The model accepts only an optional sign and ASCII digits. In the other direction, CPython 3.11 and later (and the 3.7.14+ security releases) raise `ValueError` on a string of more than 4300 digits. The model has no such limit, so `"0" * 4300 + "5"` is accepted as 5 by the model, while such a Python re-asks with the "Invalid input" warning.
- `Text.Lower` folds ASCII letters only. Every comparison in the program is against the ASCII strings `done`, `ubuntu` and `centos`, where this agrees with Python for ASCII input.
- `Machines.NewMachine`: the `isinstance` checks on name, cpu and ram_gb are not modelled. The fields are typed, so a non-string name or a non-integer number cannot arise. A `bool` passed as cpu is not representable.
- `InfraSimulator.TextBodyHasOneLinePerMachine` requires names without line breaks. Names read from one console line never hold one, but a `Machine` built directly could.
- `_ask_nonempty` is modelled as `InputHelpers.AskNonEmpty`, although `get_vm_details` does not call it.
- The prompt texts printed by `input(prompt)` are not modelled.
- The end-to-end run from two concrete four-line entries to the text file is not evaluated on literal strings. Instead, `InputHelpers.WellFormedBlockAddsMachine` and `InfraSimulator.TextLineFields` state the same facts for every input.
