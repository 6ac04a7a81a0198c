# sysutil core, modelled in Dafny

`sysutil` is a command-line toolbox written in Go. This project models the
decision logic of seven of its parts and proves properties of that model:

- `ldiftool` converts CSV to LDIF change records and LDIF entries back to CSV
  records (`ldiftool.dfy`, `ldifread.dfy`), and what it writes reads back
  (`ldifback.dfy`);
- `snap` is a terminal console over Snapper: a focus cycle, the snapper
  command lines, the staleness flag and the snapshot table with its actions
  (`snap.dfy`);
- the audio handler averages channel volumes, marks the default device and
  turns volume actions into `pactl` commands (`audio.dfy`);
- `wofissh` collects host names from an ssh config, following `Include`
  lines, offers them in wofi and builds the ssh command (`wofissh.dfy`);
- `wofiwaypipe` offers the hosts of a YAML file and builds the waypipe
  command line (`wofiwaypipe.dfy`);
- `mac` derives the vendor lookup key and URL from a MAC address and picks the
  default interface (`mac.dfy`);
- `clean` decides which directories under the home directory are removed
  and whether the journal is vacuumed (`clean.dfy`).

The shared modules model two things. `Text` models the Go string functions
the sources use, on ASCII: `TrimSpace`, `Fields`, `Join`, `Split`,
`HasPrefix`, `ToLower`, `LastIndex` and `TrimSuffix`. `Sorting` models
`sort.Strings` as the unique sorted permutation. `Attempts` models "run steps
in order until the first fails". `Wrappers` holds `Option` and `Result`.

Everything outside the program is a parameter:

- `run: seq<string> -> bool` says whether an external command with that argv
  succeeds;
- `wofi` returns wofi's output, or `None` when it fails;
- `glob` and `included` are the glob expansion and the hosts of an included
  file;
- a removal oracle says whether `os.RemoveAll` succeeds;
- files arrive already read: a CSV as records, an LDIF file as lines, a YAML
  file as a map, terminal input as the words `fmt.Scan` reads.

Go map iteration order is a nondeterministic choice in the methods. The
proved results are independent of it.

A failing `snap` delete or rollback ends the program with `log.Fatal`
(cmd/snap.go:174-184). The model reports the failure as the result of
`Snap.Console.Activate`, rather than modelling a recoverable error state.

## Model

| member | source | states |
|---|---|---|
| LdifTool.StringInSlice | cmd/ldiftool.go:260-267 | true exactly when the string is an element of the slice |
| LdifTool.IndexIn | cmd/ldiftool.go:150-155 | -1 exactly when the name is not in the header; otherwise a position holding the name with no earlier position holding it |
| LdifTool.GetColumnIndex | cmd/ldiftool.go:148-156 | a CSV without records is an error (the source panics on `csvData[0]`); a missing column is `ColumnNotFound`; otherwise the first header position holding the name, which always exists when the name is in the header |
| LdifTool.WriteLdif | cmd/ldiftool.go:95-145 | a missing `dn` column is reported before a missing attribute column and before any output; otherwise the output is, for each data row in order and only for rows with a non-empty attribute cell, the lines `dn:`, `changetype: modify`, the change line, the value line unless deleting, and a blank line |
| LdifTool.ScanLinesNoNewline | cmd/ldiftool.go:176-179 | no line the scanner yields contains a line feed |
| LdifTool.ScanLinesCons | cmd/ldiftool.go:176-179 | text that starts with a line and "\n" scans as that line, minus a trailing carriage return, followed by the lines of the rest |
| LdifTool.RunAppend | cmd/ldiftool.go:178-198 | reading `a + b` gives the same state as reading `b` from the state after `a` |
| LdifTool.RunFailsAt | cmd/ldiftool.go:187-195 | an attribute line before any `dn:` line fails the read at that line (the source writes to a nil map) |
| LdifTool.ReadLdif | cmd/ldiftool.go:172-205 | the scanner loop computes `ParseLdif` of the lines, whose failures, entries and attribute values `LdifRead.ParseLdifFails`, `LdifRead.ParseLdifEntries` and `LdifRead.ParseLdifAttributes` characterise |
| LdifBack.WriteReadBack | cmd/ldiftool.go:111-141 | reading back what `writeLdif` writes succeeds, with one entry per data row that has a non-empty attribute cell, in row order, whose `dn` is that row's `dn` cell; this holds when the `dn` and attribute cells stay on one line without a trailing carriage return, the `dn` cells have no surrounding white space, and the attribute and change type are LDIF attribute types other than `dn` |
| LdifBack.BlockScans | cmd/ldiftool.go:116-140 | one change record, followed by any text, scans as its four or five lines, followed by the lines of that text |
| LdifRead.RunBuilt | cmd/ldiftool.go:178-202 | after any prefix of the lines, the reader state is either the failure at the first orphan attribute line, or the entries opened by the `dn:` lines so far |
| LdifRead.ParseLdifFails | cmd/ldiftool.go:172-205 | reading fails at line `i` exactly when line `i` is the first attribute line before any `dn:` line |
| LdifRead.ParseLdifEntries | cmd/ldiftool.go:172-205 | reading succeeds exactly when no attribute line comes before the first `dn:` line; then there is one entry per `dn:` line, in order, each with a `dn` value starting with the trimmed text after that line's `dn:` |
| LdifRead.SectionsDn | cmd/ldiftool.go:181-185 | the file falls into one section per `dn:` line, in order, each holding the trimmed text after its `dn:`, and the lines up to the next `dn:` line |
| LdifRead.ParseLdifAttributes | cmd/ldiftool.go:172-205 | when reading succeeds, entry `k` holds `dn` and exactly the attributes that the lines of section `k` name. Split at line feeds, each attribute's values are the trimmed values of those lines in file order, after the `dn:` line's own value for `dn`. Lines without a colon add nothing |
| LdifRead.ReadLdifText | cmd/ldiftool.go:172-205 | the same holds for the lines the scanner yields from any file text |
| LdifRead.AddValueSplit | cmd/ldiftool.go:191-195 | adding a value keeps all other attributes; the attribute's values split at line feeds are its old values followed by the new one |
| LdifRead.SplitAttributeKeeps | cmd/ldiftool.go:187-190 | the name and value of an attribute line contain no character the line does not contain |
| LdifTool.KeysOfHas | cmd/ldiftool.go:219-226 | a key is collected exactly when some entry has it |
| LdifTool.FirstWithIsFirst | cmd/ldiftool.go:219-226 | the entry that first shows a key has it, and no earlier entry does |
| LdifTool.ListsSize | cmd/ldiftool.go:219-226 | a header listing a key set once per key is as long as the set |
| LdifTool.CollectHeader | cmd/ldiftool.go:219-226 | the header lists every key of every entry exactly once, ordered by the first entry that has it |
| LdifTool.AddKeys | cmd/ldiftool.go:221-225 | one entry's pass adds exactly its unseen keys and keeps first-seen order |
| LdifTool.BracketedEach | cmd/ldiftool.go:240-242 | each value becomes `[value]`, position by position |
| LdifTool.CellOfValues | cmd/ldiftool.go:235-249 | an attribute with one value gives that value as the cell; with several, the concatenation of the bracketed values |
| LdifTool.EncodeCell | cmd/ldiftool.go:235-249 | the cell loop gives `Cell`: empty for a missing key, the bracketed values for a multi-line value, the value otherwise |
| LdifTool.WriteCsv | cmd/ldiftool.go:208-257 | the records are the header and then one row per entry, in order; the header lists all keys once, in first-seen order; each row cell is that entry's cell for the header key in its column |
| Snap.FirstFocused | cmd/snap.go:32-35 | `None` exactly when no element has focus; otherwise the first element that has focus |
| Snap.CycleFocus | cmd/snap.go:31-46 | `None` exactly when no element has focus; otherwise the index after the focused one, or before it in reverse, modulo the count |
| Snap.CycleFocusInverse | cmd/snap.go:37-41 | cycling one way and then the other returns focus to where it was |
| Snap.OnKey | cmd/snap.go:243-249 | PgUp cycles forward, PgDn in reverse, any other key moves nothing |
| Snap.Configurations | cmd/snap.go:63-68 | the configurations are the first fields of all records but the header, in order |
| Snap.ShowsCells | cmd/snap.go:135-164 | the table holds the six header labels, non-selectable; each snapshot row has selectable Delete and Rollback cells and its four fields; only those action cells are selectable |
| Snap.ShowsHeaderOnly | cmd/snap.go:138-150 | a listing with no snapshots gives a table of only the header row |
| Snap.Dispatch | cmd/snap.go:171-185 | column 0 deletes and column 1 reverts the snapshot whose id is in field 1 of that row; other columns do nothing |
| Snap.DispatchShownId | cmd/snap.go:158-185 | a selectable cell is an action cell of a snapshot row, and its action uses the id displayed in column 3 of that row |
| Snap.Console.constructor | cmd/snap.go:25-28 | the console starts with the staleness flag set, no configuration, name, table or listing |
| Snap.Console.SelectConfig | cmd/snap.go:216-221 | the chosen configuration becomes the selected one and the flag is set; nothing else changes |
| Snap.Console.SetName | cmd/snap.go:222 | the typed text becomes the snapshot name; nothing else changes |
| Snap.Console.CreateSnapshot | cmd/snap.go:89-97 | runs `snapper -c <config> create -d <name>`; afterwards the flag is set exactly when it was set before or the command succeeded; nothing else changes |
| Snap.Console.DeleteSnapshot | cmd/snap.go:100-108 | runs `snapper -c <config> delete <id>` in the configuration it is given; afterwards the flag is set exactly when it was set before or the command succeeded; nothing else changes |
| Snap.Console.RevertSnapshot | cmd/snap.go:111-118 | runs `snapper -c <config> undochange <id>..0` in the configuration it is given and leaves the flag alone |
| Snap.Console.Refresh | cmd/snap.go:121-166 | one pass of the refresh loop of a configuration: a stale table is rebuilt to show that configuration's listing, and the listing and the configuration are kept for the selection callback; a current table, listing and configuration are left alone; either way the flag is clear afterwards and the selected configuration and name are kept |
| Snap.Console.DrawRow | cmd/snap.go:152-163 | one data row fills its six cells |
| Snap.Console.Activate | cmd/snap.go:171-185 | selecting column 0 deletes the row's snapshot, and column 1 reverts it, in the configuration the table was drawn for, which may differ from the one selected now; a delete may set the flag; other columns run nothing |
| Snap.DeleteAfterSwitch | cmd/snap.go:121-185 | after a refresh of one configuration and a switch to another in the drop-down, a delete from the table still runs in the configuration the table shows |
| Decimal.AtoiItoa | handlers/audio.go:177 | every 64-bit integer formatted by `Itoa` parses back to itself with `Atoi` |
| Decimal.AtoiDigits | handlers/audio.go:63 | a digit string within 64 bits parses to its decimal value |
| Decimal.AtoiNegative | handlers/audio.go:63 | a minus sign and such digits parse to the negated value |
| Decimal.NatDigitsValue | handlers/audio.go:177 | the decimal digits of `n` denote `n` |
| Audio.ParsedRemove | handlers/audio.go:61-67 | the sum and count over any set of channels equal those over the set minus one channel plus that channel's contribution, so the map's order does not matter |
| Audio.ParsedIgnores | handlers/audio.go:62-66 | a channel whose value does not parse changes neither the sum nor the count |
| Audio.ParsedBounds | handlers/audio.go:61-67 | when every parsed value lies in `[lo, hi]`, the sum lies between count·lo and count·hi |
| Audio.GoDivBounds | handlers/audio.go:71 | Go's truncating quotient of such a sum by a positive count lies in `[lo, hi]` |
| Audio.MeanBounds | handlers/audio.go:58-73 | the average of channels whose values lie in `[lo, hi]` lies in `[lo, hi]` |
| Audio.AggregateVolume | handlers/audio.go:58-73 | the loop returns the truncated mean of the parsable percentages, or 0 when none parses, in whatever order the map is visited |
| Audio.DefaultQuery | handlers/audio.go:101-108 | a default device is asked for exactly for `sinks` and `sources` |
| Audio.GetAudioInfo | handlers/audio.go:77-123 | an unreadable listing is an error with no devices; otherwise there is one entry per device, in order, holding its average volume; an entry is marked default exactly when the device type has a default query that answered and the name equals the trimmed answer; a failing default query returns the entries unmarked with the error flag |
| Audio.MarkDefault | handlers/audio.go:115-119 | every entry whose name is the default name is marked default; entries marked before stay marked, and all other fields are kept |
| Audio.Clamp | handlers/audio.go:159-163 | the adjustment clamped to `[0, 100]`, unchanged inside it |
| Audio.Normalize | handlers/audio.go:144-163 | an empty type becomes `sink`, an empty device the default sink or source for the type, the adjustment is clamped; the rest is kept |
| Audio.NormalizeIdempotent | handlers/audio.go:144-163 | normalising twice is normalising once |
| Audio.VolumeArgPercent | handlers/audio.go:177 | the volume argument `<n>%` reads back, the way channel volumes are read, as the clamped adjustment |
| Attempts.RunPrefix | handlers/audio.go:170-191 | the commands run are a prefix of the plan, never empty when the plan is not, and all but the last succeeded |
| Attempts.RunStops | cmd/clean.go:79-100 | the run ends on a failure exactly when some step fails; without a failure every step runs |
| Audio.PlannedRun | handlers/audio.go:166-191 | an action runs mute, then volume if mute succeeded, then set-default if asked for and volume succeeded |
| Audio.FillDefaults | handlers/audio.go:144-163 | the defaulting and clamping steps give `Normalize` |
| Audio.RunPlan | handlers/audio.go:165-191 | the command steps of one action give its run until the first failure |
| Audio.ProcessAudioActions | handlers/audio.go:137-195 | undecodable input is an error and runs nothing; otherwise each action's commands run in order, and a failure skips only the rest of its own action |
| WofiSsh.HostLineNames | cmd/wofissh.go:93-96 | a trimmed line starting `Host ` yields its following words, of which there is at least one, all without white space |
| WofiSsh.HostKeyword | cmd/wofissh.go:93-95 | the words after `Host` in a `Host ` line are the words of the text after the keyword, and there is at least one |
| WofiSsh.IncludeLinePatterns | cmd/wofissh.go:64-70 | a trimmed `Include ` line yields its following words, never none, so the length guard of the source never applies |
| WofiSsh.HostNameIsOther | cmd/wofissh.go:64-96 | a line whose trimmed text starts with `HostName` is neither a `Host ` nor an `Include ` line, because the keyword needs its space, and it contributes no host |
| WofiSsh.ResolveInDir | cmd/wofissh.go:71-73 | an absolute pattern is kept; a relative one is joined to the directory of the config file |
| WofiSsh.FromMatchesIncluded | cmd/wofissh.go:81-88 | every host collected from glob matches comes from an included file that could be read |
| WofiSsh.FromPatternsIncluded | cmd/wofissh.go:70-89 | every host collected through patterns was read by `included` from a file that `glob` matched for one of those patterns, resolved against the config file's directory |
| WofiSsh.IncludeLineIncluded | cmd/wofissh.go:64-91 | every host an `Include` line contributes was read by `included` from a file that `glob` matched for one of the words after `Include`, resolved against the config file's directory |
| WofiSsh.ScanLine | cmd/wofissh.go:62-96 | one pass of the scanner loop contributes `FromLine` of its line |
| WofiSsh.GetHosts | cmd/wofissh.go:51-102 | an unreadable file is an error; otherwise the hosts of all lines, sorted, a permutation of what the lines contribute |
| WofiSsh.MenuLines | cmd/wofissh.go:106 | the menu text split at line feeds gives back the host names |
| WofiSsh.Choose | cmd/wofissh.go:105-117 | no choice exactly when wofi fails; a choice has no outer white space |
| WofiSsh.ChooseTrimmed | cmd/wofissh.go:116 | the choice is wofi's output trimmed, and trimming it again changes nothing |
| WofiWaypipe.FinalArgs | cmd/wofiwaypipe.go:56-59 | a non-empty flag replaces the host's arguments; an empty one keeps them |
| WofiWaypipe.ListedOnce | cmd/wofiwaypipe.go:86-89 | a listing that is a permutation of the key set holds each key once and nothing else |
| WofiWaypipe.SortedKeysUnique | cmd/wofiwaypipe.go:90 | any sorted listing of the keys is the one `SortedKeys` gives |
| WofiWaypipe.HostNames | cmd/wofiwaypipe.go:86-90 | the name list is sorted, a permutation of the map's keys, and the same whatever the iteration order |
| WofiWaypipe.WaypipeShowWofi | cmd/wofiwaypipe.go:85-101 | the choice is wofi's trimmed output over the sorted host names |
| WofiWaypipe.WaypipeArgs | cmd/wofiwaypipe.go:105-112 | the argv is the words of the argument string, then `ssh`, the host and the application |
| WofiWaypipe.WaypipeArgsWords | cmd/wofiwaypipe.go:107-112 | words joined by single spaces come back as those words in the argv |
| WofiWaypipe.Launch | cmd/wofiwaypipe.go:40-61 | an unreadable config is an error, then a failing wofi, then a host not in the config; otherwise the waypipe argv of the chosen host |
| WofiWaypipe.OutcomeHost | cmd/wofiwaypipe.go:45-61 | a launch happens exactly when the choice is a configured host; the argv ends with `ssh`, that host and its application |
| Mac.HexByte | cmd/mac.go:113 | a byte is two lower-case hex digits, without a colon, that read back as the byte: sixteen times the first digit plus the second |
| Mac.HexDigit | cmd/mac.go:113 | a value below sixteen becomes a lower-case hex digit whose value it is |
| Mac.ShortenMAC | cmd/mac.go:62-68 | the first six characters, or the whole text when shorter |
| Mac.ShortenMACIdempotent | cmd/mac.go:62-68 | shortening twice is shortening once |
| Mac.RemoveAllGone | cmd/mac.go:73 | no colon is left after removing colons |
| Mac.RemoveAllJoin | cmd/mac.go:73 | removing the separator from colon-free parts joined by it concatenates them |
| Mac.LookupUrlParts | cmd/mac.go:73-76 | the key has at most six characters and no colon; the URL is the API prefix followed by the key |
| Mac.LookupKeyVendor | cmd/mac.go:73 | for an address of at least three bytes, the key is the hex of its first three bytes, the vendor prefix |
| Mac.FirstEligible | cmd/mac.go:110-115 | a found position holds an interface that is up to the rule: not loopback, with a hardware address |
| Mac.FirstEligibleIsFirst | cmd/mac.go:110-117 | none is found exactly when no interface is eligible; otherwise no earlier interface is |
| Mac.GetDefaultMACAddress | cmd/mac.go:104-118 | an enumeration failure is an error; otherwise the colon-separated hex address of the first eligible interface, or an error when there is none |
| Clean.FormatInputIdempotent | cmd/clean.go:27-35 | normalising an answer twice is normalising it once |
| Clean.ConfirmsForms | cmd/clean.go:71 | an answer confirms exactly when, trimmed, it is `y` or `yes` in any mixture of cases |
| Clean.ConfirmsFormatted | cmd/clean.go:92-95 | a normalised answer confirms exactly when the raw one does |
| Clean.CleanPathsShape | cmd/clean.go:44-51 | each of the six paths is the home directory followed by its fixed suffix, in the fixed order, and no path appears twice |
| Clean.StaleAnswer | cmd/clean.go:87-92 | as written, answering `n` and then `y` with no further input removes all six directories; with end of input read as no, only the first is removed |
| Clean.SelectedAgrees | cmd/clean.go:61-100 | while every question gets its own word the source's choice and the corrected one are equal |
| Clean.PerPathOrdered | cmd/clean.go:77-100 | the directories chosen one by one keep the order of the list |
| Clean.PerPathChosen | cmd/clean.go:87-100 | a directory is chosen exactly when its own answer confirms |
| Clean.SelectedRule | cmd/clean.go:61-100 | with `--yes` or a confirming first answer all directories are chosen, in order; otherwise exactly those whose own answer confirms, in order |
| Clean.ExpectedJournal | cmd/clean.go:105-116 | the journal command runs only when asked for and only after every chosen removal succeeded |
| Clean.Ask | cmd/clean.go:66-69 | a prompt takes the next word and normalises it, or the empty answer at end of input |
| Clean.AskAll | cmd/clean.go:61-74 | the first question decides between removing everything and asking per directory |
| Clean.AskOne | cmd/clean.go:79-100 | one directory is removed without a question when all are, otherwise when its answer confirms (end of input read as no, see ## Findings) |
| Clean.RemoveChosen | cmd/clean.go:77-102 | the loop tries the chosen directories in order until a removal fails, and reports whether one did (end of input read as no, see ## Findings) |
| Clean.Clean | cmd/clean.go:42-117 | the command does what `Expected` says: removals until the first failure, then the journal vacuum when asked for |
| Sorting.Sort | cmd/wofissh.go:99 | the result is sorted and a permutation of the input |
| Sorting.SortedUnique | cmd/wofiwaypipe.go:90 | two sorted permutations of one sequence are equal |

## Left out

- Reading and writing files, standard input and output, cobra flag parsing, and process exit codes. Files and input arrive as values; failures come back as `Result` errors or flags.
- `log.Fatal` and `log.Fatalf` are modelled as the operation returning its error. Nothing after that point is modelled.
- LdifTool.GetColumnIndex: a CSV with no records makes the source panic on `csvData[0]`; the model returns the error `EmptyCsv` instead.
- LdifTool.ReadLdif: an attribute line before the first `dn:` line writes to a nil map, and Go panics (cmd/ldiftool.go:191-194). A file that starts with an RFC 2849 `version: 1` line does this. The model returns the error `AttributeBeforeDn` with that line's index instead (`LdifTool.RunFailsAt`, `LdifRead.ParseLdifFails`).
- LdifTool.ScanLines / WofiSsh.GetHosts: `bufio.Scanner` stops at a line longer than 64 KiB, and neither `readLdif` nor `getHosts` checks `scanner.Err()`, so the source then returns what it read before that line with no error; the model yields every line.
- CSV quoting and `csv.Reader`'s field-count check. Records are assumed rectangular (`LdifTool.Rectangular`), as `ReadAll` guarantees.
- JSON decoding of pactl output and of volume actions, YAML decoding of the waypipe config, and the HTTP request and JSON decoding of the MAC lookup. All of them are library code; the model starts from their decoded results.
- RFC 2849 is followed only as far as the source does. There are no base64 values, continuation lines or comments.
- `snap`: the polling loop, its goroutines, the sleep, `QueueUpdateDraw`, and the unsynchronised flag shared with `cmd/deviceapi.go`. A refresh is one sequential step. Cell colours, alignment and borders are also left out, as is the colour change on selection (cmd/snap.go:172). Each configuration switch starts another refresh loop for that configuration (cmd/snap.go:216-221). The model has one `Refresh` call per pass, with the configuration as its parameter, so it does not capture several loops interleaving.
- Snap.Console.Refresh: the listing is a parameter. The `snapper list` call and its possible fatal failure are not modelled.
- Audio.AggregateVolume: the sum of percentages is an unbounded integer, whereas Go's `int` wraps once the total passes 2^63 - 1. `Decimal.Atoi` accepts values up to that limit, so two channels near it are enough: for `9223372036854775807%` and `1%` the source returns -4611686018427387904 and the model 4611686018427387904, and `Audio.MeanBounds` does not hold for the source on such input. The percentages pactl reports are at most a few hundred and never come close.
- WofiSsh.Dir / WofiSsh.JoinPath: `filepath.Dir` and `filepath.Join` also clean the resulting path lexically; the model leaves that clean-up out and passes the uncleaned path to the `glob` oracle.
- `filepath.Glob` and reading included ssh config files are the oracles `glob` and `included`.
- WofiSsh.GetHosts: the recursive call for an included file is the oracle `included`, so the model does not follow an `Include` cycle.
- Sorting.Sort: states the result of `sort.Strings`, not its in-place algorithm.
- The external commands (pactl, snapper, wofi, waypipe, ssh, journalctl, `os.RemoveAll`) are oracles. Their outcome depends on the argv only.
- `net.Interfaces` arrives as a list of interfaces. Only the loopback bit of the flags is interpreted.
- `mac`'s `init`-time flag handling and the printing of the lookup result are left out.
- Strings are ASCII. `TrimSpace` and `ToLower` do not handle Unicode beyond that.
- `cmd/mv.go`, `cmd/ip.go`, `cmd/update.go`, `cmd/mdconvert.go`, `cmd/deviceapi.go`, `cmd/common.go`, `cmd/root.go` and the other handlers are not part of this model.

## Findings

| source | as written | input that shows it | evidently intended | confidence | as-written member | corrected member |
|---|---|---|---|---|---|---|
| cmd/clean.go:89 | `fmt.Scan(&confirm)` at end of input leaves `confirm` holding the previous answer, so a later question is answered by an earlier word | noPrompt false, input words `n`, `y`, then end of input: the first directory's `y` is reused for the other five, and all six are removed | a question without an answer does not confirm, so only the first directory is removed | not executed | Clean.SelectedAsWritten | Clean.Selected |

`Clean.StaleAnswer` proves both halves for this input. `Clean.SelectedRule`
proves the intended rule for `Clean.Selected`, which `Clean.Clean` implements.
`Clean.SelectedAgrees` shows that the two readings coincide whenever every
question gets its own word.
