# Append-only key/value store: a Dafny model

This project models the core of `kv_store.py`. It is a small persistent
key/value store. Its command loop reads `SET <key> <value>`, `GET <key>` and
`EXIT` from standard input. Every `set` is appended to a log file as the line
`SET <key> <value>\n` before the in-memory index is updated. At start-up the
whole log is replayed to rebuild the index. The index is two parallel lists,
`keys` and `vals`. `set` appends to both lists, and `get` scans from the back,
so the last write wins.

The model is purely functional. It has these modules:

- `Tokens`: `valid_token` and Python's `str.isspace`.
- `Text`: the string operations the program relies on:
  - `str.split(" ")` and `" ".join`;
  - `str.rstrip("\n")` and `str.strip()`;
  - ASCII `str.upper()`;
  - iteration over the lines of a text file, each line keeping its `\n`.
- `Record`: the record `set` writes, and the tolerant parser replay applies
  to each line.
- `KvIndex`: the two lists, and `get`/`set` on them.
- `LogStore`: a store, which pairs the log file's whole text with the index.
  It also models replay, start-up, `set`, and the recovery properties.
- `Cli`: one iteration of the loop in `main` as a pure step function, and a
  whole run of the loop over a sequence of input lines.
- `Wrappers`: an `Option` type.

The log is the file's text as a string. A durable write (write, flush,
fsync) is one string append. Input is a sequence of lines and output is a
sequence of printed lines.

The index is two append-only lists (`kv_store.py:46-47` and `80-81`); a
`set` never overwrites an earlier pair. Replay splits each line on single
spaces (`kv_store.py:61`), so a record holding a doubled space is unreadable
and is skipped.

## Model

| member | source | states |
|---|---|---|
| Tokens.HasSpace | kv_store.py:31 | the scan finds whitespace exactly when some character of the string is one of Python's whitespace code points |
| Tokens.ValidToken | kv_store.py:29-31 | a token is accepted iff it is non-empty and none of its characters is whitespace; so an accepted token holds neither a space nor a newline |
| Text.Split | kv_store.py:61 | `split(" ")` yields at least one field; no field holds the separator; joining the fields with it gives back the input |
| Text.SplitJoin | kv_store.py:61 | splitting fields joined by a separator that none of them holds gives back exactly those fields |
| Text.SplitConcat | kv_store.py:61 | splitting a concatenation glues the last field of the front part onto the first field of the back part |
| Text.RStripNewlines | kv_store.py:61 | `rstrip("\n")` removes only newlines, only from the end, and all of them |
| Text.RStripLine | kv_store.py:60-61 | on a line read from the file, `rstrip("\n")` removes its one ending newline, or nothing when the line has none |
| Text.Strip | kv_store.py:105-106 | `strip()` yields nothing exactly when the line is all whitespace; otherwise both ends of the result are non-whitespace |
| Text.StripPadded | kv_store.py:105 | stripping whitespace padding around a word with non-whitespace ends gives back the word |
| Text.Upper | kv_store.py:110 | upper-casing keeps the length and maps each character through ASCII upper case |
| Text.Lines | kv_store.py:60 | iterating a file yields lines that concatenate back to the file's text; each holds a newline only at its end, and every line but the last ends with one |
| Text.LinesConcat | kv_store.py:60 | when the front text ends at a line boundary, the lines of a concatenation are the lines of the front then the lines of the back |
| Text.LinesOfLine | kv_store.py:60 | text with no newline before its end is read as one line |
| Record.Encode | kv_store.py:76 | the record for a token key and value is one whole line, ended by a newline |
| Record.Parse | kv_store.py:61-64 | a line is accepted only with tokens as key and value, and only when its text without trailing newlines is exactly `SET`, key, value, separated by single spaces |
| Record.ParseComplete | kv_store.py:61-64 | every such line is accepted, with exactly that key and value |
| Record.ParseAcceptsExactly | kv_store.py:61-64 | replay keeps a line if and only if it reads `SET <key> <value>` with single spaces and tokens |
| Record.RoundTrip | kv_store.py:61-76 | the record `set` writes for tokens is read back by replay as exactly the pair it was written for |
| Record.ParseSkipsMalformed | kv_store.py:61-64 | a truncated `SET b`, a doubled space, a lower-case `set` and a record with a fourth field are all skipped |
| KvIndex.Get | kv_store.py:83-88 | `get` answers nothing iff the key never occurs in `keys`; otherwise it answers `vals[i]` for the last position `i` holding the key |
| KvIndex.LatestExists | kv_store.py:85-87 | every key that occurs has a last position |
| KvIndex.Put | kv_store.py:65-81 | appending keeps the lists of equal length, adds exactly one pair at the end, and that pair is (key, value); earlier pairs stay untouched; afterwards `get` answers the new value for its key and the old answer for every other key |
| LogStore.ApplyLine | kv_store.py:61-66 | a line adds one pair when it parses (its own key and value) and nothing otherwise; earlier pairs stay |
| LogStore.Replay | kv_store.py:59-66 | replay keeps the lists of equal length, adds at most one pair per line, never changes the pairs it started with, and adds only tokens |
| LogStore.ReplayConcat | kv_store.py:60-66 | replaying two stretches of log is replaying the second on the result of the first |
| LogStore.ReplayIgnoresTerminator | kv_store.py:61 | ending an unterminated last line with a newline does not change what replay rebuilds |
| LogStore.Open | kv_store.py:51-72 | with the corrected start-up (see Findings), start-up rebuilds exactly the index the file's lines replay to; the log found is kept as a prefix; the store starts with log and index in step |
| LogStore.OpenAsWritten | kv_store.py:51-72 | start-up as the program does it: same index, log left exactly as found |
| LogStore.Set | kv_store.py:74-81 | `set` appends exactly the record for the pair to the log, and its index is the old index with the pair (key, value) appended; the new value wins for its key and every other key keeps its answer |
| LogStore.SetPreservesConsistency | kv_store.py:61-81 | a `set` with tokens on a store whose index is the replay of its log keeps that so |
| LogStore.RestartAfterSets | kv_store.py:61-81 | after any run of `set` calls with tokens from a consistent store, reopening the log gives back the very same store |
| LogStore.RecoveryAfterSets | kv_store.py:51-88 | open any log, apply `set` calls with tokens, restart: the same log and `keys`/`vals`, so every `get` agrees before and after |
| LogStore.RecoveryAsWritten | kv_store.py:51-81 | with start-up as written, every `set` with tokens survives a restart provided the log found ended at a line boundary |
| LogStore.ReplayRecordThenPartial | kv_store.py:60-66 | a record followed by a partial line that does not parse replays to the record's pair alone |
| LogStore.ReplayToleratesTruncatedTail | kv_store.py:60-66 | the log `SET a 1\nSET b` replays to the single pair `a = 1` |
| LogStore.MergedLineRejected | kv_store.py:60-77 | a partial last line followed by an appended record reads as one line that never parses |
| LogStore.AsWrittenDropsSetAfterPartialLine | kv_store.py:54-81 | as written, a `set` made while the log ends in a partial line is answered from memory, but a restart drops it along with that line |
| LogStore.AsWrittenLosesSetAfterLonePartialLine | kv_store.py:54-81 | as written, when the log is one partial line, a `set` is answered, and after a restart its key is unknown |
| LogStore.AsWrittenCounterexample | kv_store.py:54-81 | the log `SET b` plus `set x 1`: `x` reads `1`, and after a restart reads nothing |
| LogStore.CorrectedKeepsSetAfterPartialLine | kv_store.py:54-81 | with the corrected start-up, the same `set x 1` survives the restart |
| Cli.Dispatch | kv_store.py:112-138 | a dispatched line prints at most one line and only appends to the log; EXIT prints nothing and changes nothing; ERR changes nothing and does not stop |
| Cli.Step | kv_store.py:104-138 | one input line prints at most one line and only appends to the log; stopping leaves the store alone; ERR leaves the store alone |
| Cli.CommandLineFields | kv_store.py:105-110 | a line whose stripped text is a word and arguments separated by single spaces is dispatched on exactly those fields |
| Cli.StepSet | kv_store.py:115-120 | SET with exactly two token arguments performs that `set` silently; any other SET prints ERR and changes neither log nor index |
| Cli.StepGet | kv_store.py:122-134 | GET with exactly one token prints the latest value of the key, or an empty line when it was never set; any other GET prints ERR; neither changes the store |
| Cli.StepExit | kv_store.py:112-113 | EXIT, in any letter case and whatever follows it, stops the loop with no output |
| Cli.StepUnknown | kv_store.py:136-138 | any other command word prints ERR and changes nothing |
| Cli.StepBlankLine | kv_store.py:105-107 | a line of only whitespace prints nothing and changes nothing |
| Cli.StepEffect | kv_store.py:104-138 | a line either leaves the store alone or performs exactly one silent `set` with tokens |
| Cli.StepPreservesConsistency | kv_store.py:104-138 | every input line keeps the log and the index in step |
| Cli.TypedLine | kv_store.py:105-109 | a typed line, fields joined by single spaces and ended by a newline, strips and splits back into those fields |
| Cli.TypedSet | kv_store.py:115-117 | `SET k v` typed with tokens, the word in any case, stores the pair and prints nothing |
| Cli.TypedGet | kv_store.py:122-131 | `GET k` typed with a token, the word in any case, prints the index's answer |
| Cli.TypedExit | kv_store.py:112-113 | a typed EXIT, in any case, stops the loop |
| Cli.TypedSetExtraField | kv_store.py:116-119 | SET with three tokens after the word prints ERR and changes nothing |
| Cli.SpaceInKeyRejected | kv_store.py:109-119 | `SET a b 1` (a key holding a space) prints ERR and changes nothing |
| Cli.Run | kv_store.py:104-138 | a run of the loop prints at most one line per input line and only appends to the log |
| Cli.RunPreservesConsistency | kv_store.py:104-138 | a whole run keeps the log and the index in step |
| Cli.RunStopsAtExit | kv_store.py:112-113 | nothing after EXIT is processed |
| Cli.Serve | kv_store.py:101-138 | `main` with the corrected start-up ends with a log that extends the file found and replays to the index the session ends with |
| Cli.ServeAsWritten | kv_store.py:101-138 | `main` with start-up as written ends with a log that extends the file found; when that file ended at a line boundary, the session is the one `Cli.Serve` gives, so the log replays to the index the session ends with |
| Cli.SetGetSession | kv_store.py:101-138 | set a key twice with a read after each, read a key never set, exit: the output is the two values then an empty line; the log is exactly the two records; after a restart the key reads the second value |
| Cli.TwoSetsRecover | kv_store.py:74-81 | two writes to a new log leave exactly their two records, and reopening that log gives back the same store |
| Cli.ExampleSession | kv_store.py:101-138 | the session `SET x 10, GET x, SET x 20, GET x, GET y, EXIT` prints `10`, `20` and an empty line, and leaves the records `SET x 10` and `SET x 20` |

## Left out

- File handling is not modelled. This covers both `open` calls, flush, `os.fsync`, `close`, and the `FileNotFoundError` branch. The log is the file's text, and an absent file reads as empty.
- Fsync ordering and crash behaviour are not modelled. They are operating-system effects.
- Reading standard input and writing or flushing standard output are not modelled. Input is a sequence of lines, and output is a sequence of printed lines.
- Universal-newline translation is not modelled. Text mode turns `\r\n` and a lone `\r` into `\n` on read. Line iteration is modelled on `\n` alone.
- UTF-8 decoding is not modelled. Strings are sequences of code points.
- Text.Upper: only ASCII letters are upper-cased. Python's `str.upper` also maps non-ASCII letters, and some of them become ASCII: `ı` becomes `I`, and `ſ` becomes `S`. So `ſet` and `exıt` are commands to the program but not to this model.
- Tokens.IsSpace follows Python's `str.isspace` code point by code point. This is a fixed list, not a Unicode database lookup.
- Text.RStripNewlines removes every trailing newline, as `rstrip("\n")` does. A line read from a file holds at most one, so this matches stripping a single trailing `\n`; Text.RStripLine proves it.
- LogStore.Open, Cli.Serve: start-up ends an unterminated log with a newline, which `kv_store.py:54-72` does not do. `LogStore.OpenAsWritten` is the program's own start-up, and `Cli.ServeAsWritten` is `main` as written; see Findings for why the two differ.
- `AppendOnlyKV.close` is not modelled. It only flushes and closes the handle.
- `get` never modifies the index. That holds by construction in a pure model. StepGet states that a GET leaves the store unchanged.
- LogStore.Set does not check its arguments, just as `set` in the source does not. The command loop checks them first. The properties that depend on replay reading a record back require tokens.

## Findings

| source | as written | input that shows it | evidently intended | confidence | as-written member | corrected member |
|---|---|---|---|---|---|---|
| kv_store.py:54-81 | Start-up leaves a log that ends in a partial line (no `\n`, e.g. after a torn write) as it is. The next `set` appends its record to that partial line, and replay reads the two as one line that never parses. A `set` that was acknowledged and fsynced is therefore lost at the next restart. | The log holds `SET b` with no newline, then `SET x 1` runs. `GET x` prints `1`. After a restart, `GET x` prints an empty line. | Every `set` made after start-up survives a restart. This holds if start-up ends a partial last line with a newline before appending. That newline does not change the index replay rebuilds. | not executed | LogStore.AsWrittenCounterexample | LogStore.RecoveryAfterSets |

`LogStore.OpenAsWritten` models start-up as written. `LogStore.AsWrittenDropsSetAfterPartialLine` proves that the loss happens for every partial line and every `set`. `LogStore.Open` is the corrected start-up, which the rest of the model uses. `LogStore.ReplayIgnoresTerminator` proves that the added newline leaves the rebuilt index unchanged. `LogStore.CorrectedKeepsSetAfterPartialLine` replays the same input under the corrected start-up. `LogStore.RecoveryAsWritten` shows that the program as written loses nothing when the log it finds ends at a line boundary.
