# autoCrack in Dafny

`autoCrack.py` drives the `hashcat` password cracker over a file of hashes.
It keeps a ledger, `crack_log.json`, of every `(hash, mode_id)` it has
already cracked. It asks the tool which hash modes fit the file, and then
tries each candidate mode in turn:

- it writes the hashes still pending for that mode to a temporary subset file;
- it creates a temporary pot file and attacks;
- on success it reads back the cracked `hash:cleartext` lines, logs one ledger
  entry per pair, and adds to a summary;
- it then removes both temporary files.

This project models the bookkeeping of that script, with the tool treated as
an oracle. Each piece is modelled in the form the script gives it:

- **Corpus reader** (module `HashLoader`). The line filter of `get_all_hashes`
  is a method with a loop, proved against the function `HashesOf`.
- **Mode enumerator** (module `ModeEnumerator`). The line parser of
  `get_candidate_modes` is a hand-written scanner for the pattern
  `^\s*(\d+)\s*\|\s*(.+?)\s*\|\s*(.+)$`. Module `ModeRegex` gives a second
  definition of the whole pattern that follows the regex engine's own search
  order. Each greedy repeat is tried from its longest run down, the lazy group
  from one character up, and a failure backtracks into the previous repeat.
  The scanner is proved equal to it on every line. The predicate `PrefixAt`
  also states the prefix `^\s*(\d+)\s*\|` declaratively, and the scanner's
  prefix is proved to be its only match.
- **Show-output parser** (module `ResultExtractor`). This is the parsing half
  of `extract_cracked_from_pot`: strip the output, split it into lines, and
  split each line on its first colon.
- **Ledger** (module `Ledger`).
  - `load_log_entries` is a function from the state of the file (missing,
    unreadable, or a list of records) to the key set and the entry list.
  - `append_log` is the method `Append` of class `CrackLog`. The class holds
    the in-memory list and the file contents it was last written to.
- **Main loop** (module `Orchestrator`). The loop of `main` is the method
  `CrackModes`, proved against the specification `RunModes`. `AutoCrack` is
  `main` after argument checking:
  - a tool that cannot be started, or an enumeration with no mode, exits with 1;
  - otherwise it runs the loop and exits with 0.

The oracles are parameters:

- `attack(mode_id, pending)` is the exit status of the cracking run.
- `show(mode_id, pending)` is the stdout of the show call.
- `clock(n)` is the timestamp of the n-th ledger append of the run.

The temporary files are recorded in an event trace of creations, removals and
tool calls.

Two behaviours of the script are kept as written:

- **Stale key set.** The key set is read once at start-up and is never
  refreshed while entries are appended. A mode id that the tool lists twice
  therefore gets the same pending list both times. Since `attack` and `show`
  are functions of the mode id and the pending list, the second attempt ends
  like the first, and its pairs are logged twice
  (`RepeatedModeRepeatsOutcome`, `RepeatedModeLogsTwice`, `ListedTwice`).
- **Repeated summary tuples.** The summary append sits inside the per-pair
  loop, so a mode that cracks k hashes adds k identical
  `(mode_id, mode_name, pairs)` tuples (`FoldPrefix`, `LedgerMatchesSummary`).

Three modules hold the lemmas about the whole run:

- `RunFacts`: the ledger and the summary.
- `TraceFacts`: the temporary files.
- `Scenarios`: a first run that cracks an MD5 digest, the run after it (which
  skips the mode), and a run in which the mode is listed twice.

## Model

| member | source | states |
|---|---|---|
| PyStr.Strip | autoCrack.py:87 | Python's `str.strip()`, also used at autoCrack.py:118-119 and 147: the result has no whitespace at either end and is no longer than the input; `StripUnique` pins it down as the one such slice |
| PyStr.StripUnique | autoCrack.py:87 | `strip()` is the one slice of the string that has only whitespace before and after it and no whitespace at either end; whitespace is the full `str.isspace` set |
| PyStr.StripIgnoresTrailingSpace | autoCrack.py:119 | appending whitespace to a string does not change what `strip()` returns |
| PyStr.IndexFrom | autoCrack.py:150-151 | the first position at or after `i` that holds the character, or the length when there is none |
| PyStr.SplitLines | autoCrack.py:111 | no line returned by `splitlines()` holds a line break, and there are no lines exactly when the text is empty |
| PyStr.SplitJoinLines | autoCrack.py:111 | `splitlines()` gives back exactly the lines of a text written one line per `\n`, provided no line holds a break of its own |
| PyStr.SplitOneLine | autoCrack.py:147 | a non-empty text without line breaks splits into itself alone |
| PyStr.SplitLinesBreak | autoCrack.py:111 | a line ended by one break character comes first, and splitting goes on after the break; this holds for a last line without a final break too, as `stdout.strip()` at autoCrack.py:147 leaves it, and a `\r` counts alone unless a `\n` follows |
| PyStr.SplitLinesCrLf | autoCrack.py:111 | `\r\n` ends a line as one break |
| HashLoader.GetAllHashes | autoCrack.py:80-90 | the loop returns the hashes of the corpus in file order; each is non-empty, does not start with `#`, and has no surrounding whitespace |
| HashLoader.HashesOf | autoCrack.py:84-90 | definition, no contract of its own: the stripped corpus lines that are non-empty and do not start with `#`, in file order and with repetitions; `GetAllHashes` is proved equal to it and `HashesMember` states its membership |
| HashLoader.HashesMember | autoCrack.py:86-89 | a string is returned exactly when some line strips to it and it is neither empty nor starts with `#` |
| HashLoader.HashesConcat | autoCrack.py:86-89 | the filter keeps order and duplicates: the hashes of two runs of lines are those of the first followed by those of the second |
| HashLoader.HashesOfOneLine | autoCrack.py:87-89 | one line yields its stripped text, unless that is empty or a comment, in which case it yields nothing |
| ModeEnumerator.SkipDigits | autoCrack.py:113 | `\d+` takes the longest run of digits |
| ModeEnumerator.ModePrefix | autoCrack.py:113 | when the start of the pattern (spaces, the digit group, spaces, the first bar) matches, the id group is a non-empty run of digits; `ModePrefixOnly` and `ModePrefixSome` pin down when it matches and what follows the bar |
| ModeEnumerator.NameField | autoCrack.py:113-119 | the name part of the pattern, `\s*(.+?)\s*\|` read as `group(2).strip()`, scanned by hand: a name it returns is stripped; `NameFieldIsRegex` proves it equal to the regex engine's answer |
| ModeEnumerator.DigitsAreStripped | autoCrack.py:118 | `group(1).strip()` is the digit group unchanged |
| ModeEnumerator.ParseModeLine | autoCrack.py:116-120 | a line that matches gives a non-empty all-digit id and a name with no surrounding whitespace |
| ModeEnumerator.CandidateModes | autoCrack.py:111-122 | the loop returns the modes of the output's lines in line order, each with a non-empty all-digit id and a stripped name |
| ModeEnumerator.ModesOf | autoCrack.py:111-122 | definition, no contract of its own: the parsed lines of the enumeration output, in line order and with repetitions; `CandidateModes` is proved equal to it and `ModesMember` states its membership |
| ModeEnumerator.ModesWellFormed | autoCrack.py:117-120 | every listed mode has a non-empty all-digit id and a stripped name |
| ModeEnumerator.ModesMember | autoCrack.py:115-120 | a mode is listed exactly when some output line parses to it; lines that do not match add nothing |
| ModeRegex.TailMatches | autoCrack.py:113 | definition, no contract of its own: whether `\s*\|\s*(.+)$` matches from a position, that is spaces, a bar and at least one more character |
| ModeRegex.LazyEnd | autoCrack.py:113 | the lazy `(.+?)`: the first end, from a position on, after which the tail matches; the end it returns is at or after the position and within the text |
| ModeRegex.Backtrack | autoCrack.py:113-119 | definition, no contract of its own: the greedy `\s*` in front of the name keeps a number of the leading spaces, starting with all of them, and gives back one more each time the lazy group finds no end |
| ModeRegex.RegexName | autoCrack.py:113-119 | definition, no contract of its own: `group(2).strip()` of the engine's first match on the text after the first bar, if any |
| ModeRegex.NameAt | autoCrack.py:113-119 | definition, no contract of its own: the bar at a position, then the name part on the text after it |
| ModeRegex.BarTry | autoCrack.py:113 | definition, no contract of its own: the `\s*` before the first bar, tried from its longest run down to none |
| ModeRegex.DigitsTry | autoCrack.py:113 | definition, no contract of its own: the id `(\d+)`, tried from its longest run of digits down to one digit |
| ModeRegex.SpacesTry | autoCrack.py:113 | definition, no contract of its own: the leading `^\s*`, tried from its longest run down to none |
| ModeRegex.RegexModeLine | autoCrack.py:113-120 | definition, no contract of its own: what `pattern.match(line)` yields as `(group(1).strip(), group(2).strip())`, searched in the engine's order |
| ModeRegex.BarTryBelow | autoCrack.py:113 | fewer spaces before the bar than the longest run end on a space, so they never reach a bar |
| ModeRegex.BarTryTop | autoCrack.py:113 | only the longest run of spaces after the id can be followed by the bar |
| ModeRegex.DigitsTryStep | autoCrack.py:113 | digits that stop just before another digit have no bar after them |
| ModeRegex.DigitsTryBelow | autoCrack.py:113 | fewer digits than the longest run never lead to a match |
| ModeRegex.DigitsTryTop | autoCrack.py:113 | only the longest run of digits can be followed by what the pattern needs, and an empty run fails |
| ModeRegex.SpacesTryBelow | autoCrack.py:113 | fewer leading spaces than the longest run leave a space where the first digit must be, so they never match |
| ModeRegex.RegexModeLinePrefix | autoCrack.py:113-119 | the engine's search for the prefix ends where the scanner's does, and then the bar and the name part decide |
| ModeRegex.PrefixAt | autoCrack.py:113 | definition, no contract of its own: `^\s*(\d+)\s*\|` matched with given ends for the leading spaces, the digits and the spaces before the bar |
| ModeRegex.ModePrefixOnly | autoCrack.py:113 | every way of matching `^\s*(\d+)\s*\|` is the scanner's: the scanner matches, with that id group and that text after the bar |
| ModeRegex.ModePrefixSome | autoCrack.py:113 | what the scanner returns is a way of matching `^\s*(\d+)\s*\|`, at the positions it scans to |
| ModeRegex.MatchedPrefixIsRegex | autoCrack.py:113-120 | with the prefix matched, the scanner and the engine agree |
| ModeRegex.UnmatchedPrefixIsRegex | autoCrack.py:113 | without the prefix, neither the scanner nor the engine matches |
| ModeRegex.LazyEndToBar | autoCrack.py:113 | the lazy `(.+?)` ends just before the whitespace in front of the first later bar, when text follows that bar; with nothing after the bar it finds no end |
| ModeRegex.LazyEndAcrossSpaces | autoCrack.py:113 | if the group cannot end after a run of spaces, it cannot end inside it either |
| ModeRegex.BacktrackFails | autoCrack.py:113 | giving back leading spaces to the group does not help once the group cannot start at the first non-space |
| ModeRegex.RegexNameAtBar | autoCrack.py:113-119 | when a bar follows the name's first character and text follows that bar, the engine's name is the stripped text up to that bar |
| ModeRegex.RegexNameSpaceGroup | autoCrack.py:113-119 | when only a bar right after the leading spaces is left, the engine lets the group take one space, and the name strips to "" |
| ModeRegex.RegexNameNone | autoCrack.py:113-116 | in every other case the pattern does not match |
| ModeRegex.NameFieldIsRegex | autoCrack.py:113-119 | the scanner's name field equals what the engine's backtracking search yields for `group(2).strip()`, match and no-match alike |
| ModeRegex.ParseModeLineIsRegex | autoCrack.py:113-120 | the scanner and the regex engine's search over the whole pattern, prefix included, agree on every line: the same lines match, with the same id and name |
| ResultExtractor.SplitFirstColon | autoCrack.py:150-151 | a line with no `:` yields nothing; otherwise the hash holds no `:` and hash, `:` and cleartext put back together are the line |
| ResultExtractor.SplitFirstColonOf | autoCrack.py:151 | conversely, `hash:cleartext` with no colon in the hash splits back into that pair, whatever colons the cleartext holds |
| ResultExtractor.ShowLines | autoCrack.py:147 | definition, no contract of its own: the lines `stdout.strip().splitlines()` of a show call |
| ResultExtractor.ShowPairs | autoCrack.py:147-153 | definition, no contract of its own: the first-colon split of every show line that holds a `:`, in order and with repetitions; `ExtractCracked` is proved equal to it and `RejoinedPairs` states its round trip |
| ResultExtractor.ExtractCracked | autoCrack.py:147-153 | the loop returns the pairs of the stripped output's lines in order; each hash holds no `:`, and each pair rejoined with `:` is one of those lines |
| ResultExtractor.RejoinedPairs | autoCrack.py:149-152 | splitting loses and invents nothing: the pairs rejoined are exactly the lines that hold a colon, in order |
| Ledger.KeysOf | autoCrack.py:66 | the key set contains the `(hash, mode_id)` of every entry and nothing else |
| Ledger.Load | autoCrack.py:56-70 | a readable ledger gives its entry list and that list's key set; a missing or unreadable one gives an empty set and an empty list |
| Ledger.KeysOfAppend | autoCrack.py:66 | the keys of a list extended at the end are the old keys plus the keys of the new entries |
| Ledger.CrackLog.Keys | autoCrack.py:159 | the keys of the in-memory list (what reloading the file gives) are the key set that loading the ledger file yields, and the list is the loaded list; this is not `already_cracked`, which is read once and never refreshed |
| Ledger.CrackLog.Open | autoCrack.py:159 | the in-memory list is the list loaded from the file, and the file is unchanged |
| Ledger.CrackLog.Append | autoCrack.py:72-78 | the entry goes at the end with the earlier ones unchanged; the file is rewritten to hold the whole new list; the keys of the in-memory list (what reloading the file gives) gain exactly the entry's key, while `already_cracked` (autoCrack.py:159) is not updated |
| Orchestrator.Pending | autoCrack.py:181 | definition, no contract of its own: the corpus hashes, in order and with repetitions, whose `(hash, mode_id)` is not in the start-up key set; `PendingMember`, `PendingConcat` and `PendingEmpty` state its properties |
| Orchestrator.OutcomeOf | autoCrack.py:181-206 | definition, no contract of its own: a mode with nothing pending is skipped, a failed attack is not found, and a successful one is found with the pairs its show call reads back |
| Orchestrator.Outcomes | autoCrack.py:179-206 | one outcome per candidate mode, in order, each decided by the same start-up key set |
| Orchestrator.Fold | autoCrack.py:179-230 | definition, no contract of its own: the run's ledger entries, summary tuples, outcomes and event trace, mode after mode; `FoldPrefix` states what one more mode adds |
| Orchestrator.RunModes | autoCrack.py:179-230 | definition, no contract of its own: the whole per-mode loop as a value, `Fold` over the modes' start-up outcomes; `CrackModes` is proved equal to it, and the RunFacts and TraceFacts lemmas are stated over it |
| Orchestrator.LoggedSnoc | autoCrack.py:208-217 | logging one more pair appends its entry, tagged with the mode id and stamped with the next timestamp |
| Orchestrator.CopiesSnoc | autoCrack.py:218 | each pair adds one more copy of the mode's summary tuple |
| Orchestrator.Logged | autoCrack.py:208-217 | definition, no contract of its own: one entry per read-back pair, in pair order, with the mode id and consecutive timestamps; `LoggedSnoc` states the one-more-pair step |
| Orchestrator.Copies | autoCrack.py:218 | definition, no contract of its own: the k identical summary tuples of a mode with k pairs; `CopiesSnoc` states the step |
| Orchestrator.ModeTrace | autoCrack.py:189-230 | definition, no contract of its own: a skipped mode makes no event; otherwise the subset file, the pot file, the attack, the show call only after a successful attack, then the removal of both files; the TraceFacts lemmas state its properties |
| Orchestrator.Step | autoCrack.py:181-218 | definition, no contract of its own: one iteration adds the mode's entries, its summary tuples, its outcome and its events to the run; `FoldPrefix` states it over `Fold` |
| Orchestrator.FoldPrefix | autoCrack.py:179-230 | one more mode adds, for its k pairs, k ledger entries in pair order and k identical summary tuples; it adds its outcome, and its events to the trace |
| Orchestrator.LogPairs | autoCrack.py:208-218 | the per-pair loop appends one entry per pair in pair order and one summary tuple per pair; it rewrites the file when there is at least one pair |
| Orchestrator.CrackMode | autoCrack.py:181-230 | one mode ends as its start-up outcome. With nothing pending it is skipped with no file, no tool call and no entry. A failed attack logs nothing. A successful one logs its read-back pairs. Both temporary files are removed |
| Orchestrator.CrackModes | autoCrack.py:179-230 | the loop leaves the ledger extended by exactly the run's entries, with the run's summary, outcomes and trace; the file is unchanged when nothing was logged |
| Orchestrator.AutoCrack | autoCrack.py:155-230 | exit code 1 exactly when the tool cannot be started or lists no mode, and then nothing is changed; otherwise exit code 0, with the saved ledger being the loaded list plus the run's entries |
| RunFacts.PendingMember | autoCrack.py:181 | a hash is pending for a mode exactly when it is in the corpus and `(hash, mode_id)` is not in the start-up key set |
| RunFacts.PendingConcat | autoCrack.py:181 | the pending hashes keep corpus order |
| RunFacts.PendingOne | autoCrack.py:181 | a single corpus line is pending unless its key is known |
| RunFacts.PendingEmpty | autoCrack.py:181-184 | a mode is skipped exactly when every corpus hash is already in the ledger under its id |
| RunFacts.FoldOutcomes | autoCrack.py:179-230 | the run reports the outcomes of its modes, in mode order |
| RunFacts.FoldCounts | autoCrack.py:208-218 | the run adds one summary tuple per ledger entry |
| RunFacts.RunOutcomes | autoCrack.py:159-184 | every mode's outcome depends on the start-up key set alone, never on what earlier modes logged |
| RunFacts.BlockMatches | autoCrack.py:208-218 | one mode's entries and its summary tuples line up: each entry names the tuple's mode, and its pair is in the tuple |
| RunFacts.LedgerMatchesSummary | autoCrack.py:208-218 | over the whole run, the k-th new ledger entry has the mode of the k-th summary tuple, and its pair is among that tuple's pairs |
| RunFacts.EntryOrigin | autoCrack.py:206-217 | every new entry comes from a pair that its own mode read back |
| RunFacts.FoundPairsWerePending | autoCrack.py:181-206 | when the show call reports only hashes it was given, every read-back hash was pending for the mode |
| RunFacts.NoStartupKeyRelogged | autoCrack.py:159-217 | when the show call reports only hashes it was given, a run never logs a key that the ledger held at start-up |
| RunFacts.RerunLogsNothingAgain | autoCrack.py:56-78 | a second run started from the file the first run saved logs no key that was in the first ledger or that the first run added |
| RunFacts.AllSkippedTouchesNothing | autoCrack.py:182-184 | a run whose modes are all skipped logs nothing, summarises nothing and creates no file |
| RunFacts.AllLoggedSkipsAll | autoCrack.py:181-184 | when every hash is logged under every candidate id, every mode is skipped and nothing changes |
| RunFacts.RepeatedModeRepeatsOutcome | autoCrack.py:159-206 | a mode id listed twice gets the same pending list both times, because the key set is not refreshed, and so ends the same way under the same oracles |
| RunFacts.RepeatedModeLogsTwice | autoCrack.py:181-217 | two candidates with the same id log the same keys twice, one block after the other |
| RunFacts.SameOutcomeLogsTwice | autoCrack.py:208-217 | two steps with the same id and outcome append the same keys twice |
| TraceFacts.LiveAfterConcat | autoCrack.py:179-230 | replaying the file events of two consecutive pieces of a run is replaying one after the other |
| TraceFacts.ModeTraceReleases | autoCrack.py:189-230 | a skipped mode leaves the live temporary files as they were; an attempted one removes both files it created, found or not |
| TraceFacts.ModeTraceCalls | autoCrack.py:202-206 | a mode calls the tool for itself only: it attacks unless skipped, and makes the show call only when the attack succeeded |
| TraceFacts.ModeTraceToolCalls | autoCrack.py:189-206 | during a mode's tool calls exactly its subset file and pot file are live |
| TraceFacts.TraceModesBelow | autoCrack.py:179 | every event of a run belongs to one of its modes |
| TraceFacts.RunReleasesAll | autoCrack.py:222-230 | no temporary file outlives the loop |
| TraceFacts.ToolSeesOwnFiles | autoCrack.py:189-230 | every tool call of the run sees exactly the two files of its own mode; those of earlier modes are gone |
| TraceFacts.ToolCalledIffAttempted | autoCrack.py:182-206 | the attack for a mode is made exactly when the mode is not skipped, and the show call exactly when the attack succeeded |
| TraceFacts.AttackedIffPending | autoCrack.py:181-206 | a mode is attacked exactly when some hash is pending for it, and its output is read back exactly when that attack exits with 0 |
| Scenarios.CorpusHashes | autoCrack.py:84-90 | a corpus of a hex digest and a comment line yields the digest alone |
| Scenarios.ModeLineParses | autoCrack.py:113-120 | the line `ModeLine`, which lists mode 0 as MD5 of category "Raw Hash", parses as mode "0" named "MD5" |
| Scenarios.EnumeratedTwice | autoCrack.py:111-122 | an output that repeats a mode line lists that mode twice |
| Scenarios.ShownLine | autoCrack.py:147-153 | a show output of one stripped line `h:c`, with no colon in `h`, yields the one pair (h, c); any further colons stay in the cleartext |
| Scenarios.ShownPairs | autoCrack.py:147-153 | the show output `<digest>:password` yields the one pair (digest, "password") |
| Scenarios.FirstRun | autoCrack.py:159-218 | with no ledger yet, the run logs exactly one entry (digest, "0", "password", first timestamp) and one summary tuple |
| Scenarios.SecondRun | autoCrack.py:159-184 | started from the ledger the first run saved, the next run skips the mode and touches nothing |
| Scenarios.ListedTwice | autoCrack.py:159-218 | when the tool lists the mode twice, the digest is logged twice under the same key |
| Scenarios.OneFoundRun | autoCrack.py:179-218 | a run over one mode whose one hash is pending and whose show output yields one pair logs exactly that pair |
| Scenarios.RelogFromSaved | autoCrack.py:56-218 | when the one read-back hash differs from the pending line, a second run started from the saved ledger logs the same key again, although that key is already in the ledger |
| Scenarios.SaltedHashLoggedAgain | autoCrack.py:147-218 | a salted line `h:s` read back as `h:s:p` is logged under (h, id); that key never matches the pending `h:s`, so every run from the saved ledger logs it again |

## Left out

- The calls to `hashcat` (autoCrack.py:102-106, 129-134, 142-146) are oracles: `attack`, `show`, and an optional enumeration stdout (`None` when the tool cannot be started).
- Argument checking through `sys.argv`, `os.path.isfile` and `os.path.getsize` (autoCrack.py:38-54) is left out.
- Reading and writing files is left out.
  - The corpus comes in as the lines its file yields, each with its line end.
  - The ledger file is the value `LogFile`.
  - JSON encoding and decoding are not modelled.
  - Ledger JSON that decodes to something other than a list of records, such as `{}` or `""`, is treated as unreadable: the model starts from an empty ledger and writes the file. The source behaves differently. `load_log_entries` accepts such a value (autoCrack.py:66-67) and returns an empty key set. The first `entries_list.append` (autoCrack.py:76) then raises `AttributeError`. The ledger file is never rewritten, and both temporary files of that mode stay behind.
- Temporary-file names and the swallowed `os.remove` errors are not modelled; the files are the values `SubsetFile(i)` and `PotFile(i)` of an event trace.
- `datetime.now` is the parameter `clock`, read once per append.
- All printing is left out: progress lines, the summary report and its early exit (both exits there use code 0).
- ParseModeLine: `\d` is read as the ASCII digits. Python's `\d` on `str` also matches other Unicode decimal digits.
- ParseModeLine: `.` and `$` are read as any character and the end of the line. Lines come from `splitlines()` and so never hold `\n`, which is the only character where the two readings differ.
- FoundPairsWerePending: assumes the show call reports only hashes that were in its subset file. The tool can break this: for salted `hash:salt` lines, only `hash` comes back as the first field, and `SaltedHashLoggedAgain` shows the key then being logged again on every run.
- NoStartupKeyRelogged: depends on the same assumption about the show call.
- RerunLogsNothingAgain: depends on the same assumption about the show call.
- RunReleasesAll: covers runs in which nothing raises. Exceptions inside the loop are not modelled: `subprocess.run` failing (autoCrack.py:129-134, 142-146), `open` or `json.dump` failing (autoCrack.py:77-78), or the append at autoCrack.py:76 raising. There is no `try`/`finally` around the loop, so in the source each of these ends the run and skips the cleanup at autoCrack.py:222-230, leaving the mode's temporary files behind.
- ModeTraceReleases: covers a mode in which nothing raises, for the same reason. An exception between the file creations and the cleanup (autoCrack.py:189-221) leaves the files live.
- ToolSeesOwnFiles: covers runs in which nothing raises, for the same reason.
- RepeatedModeRepeatsOutcome: `attack` and `show` are functions of the mode id and the pending list, so two tool runs on the same input answer alike. The stale key set guarantees only the same pending list. The real tool need not answer alike. Every call reads a fresh, empty pot file (autoCrack.py:197-199), but a run can still be interrupted, or exit non-zero for a reason other than finding nothing, such as a device or memory error, and autoCrack.py:134 reads every non-zero status as not found.
- RepeatedModeLogsTwice: rests on the same modelling of `attack` and `show`.
- ListedTwice: rests on the same modelling of `attack` and `show`.
