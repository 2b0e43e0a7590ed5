# ligno core in Dafny

This project models the sequential core of ligno, a Go logging library. The
model covers:

- the level registry: `AddLevel`, `init`, the two lookups, `Level.String`,
  the JSON pair and the theme's colour choice;
- the tree of loggers: creating sub-loggers, adding and removing children,
  `Stop` and `IsRunning`;
- how a log call turns its pairs into a context, the intake test (running and level) of
  `log`, and one step of `processRecords`. That step builds the ancestor
  chain, merges the contexts root first (nearer contexts override), queues
  the merged record and forwards it to the parent;
- filters and the combining handler, and the gating of `StdoutHandler`;
- the terminal formatter (`ThemedTerminalFormat`), `needsQuote` and
  `SimpleFormat`'s `[file:line]` suffix.

Modules:

- `Wrappers`: Option.
- `Text`: decimal digits, quoting, Go's string order, `sort.Strings`,
  sorted key sets, `strings.IndexFunc`.
- `Levels`: a `LevelTable` value and the `Registry` class whose methods
  update the three package variables.
- `Records`: `Ctx`, `Value` and `Record`.
- `Loggers`: the logger tree as an arena `LoggerTree`. Loggers are indices,
  and a parent always has a smaller index than its children.
- `Handlers` and `Formatter`.

Where the code updates state or loops, the model is a method with loop
invariants. Most such methods are proved equal to a specification function,
and the properties are lemmas about those functions. Six loops state their
property directly in their own ensures instead:

- `CombiningHandle`, `IndexOf` and `CollectKeys`;
- `ShiftOut` and `CopyInto`, against an expression on sequences and maps;
- `ShouldLogAll`, against the predicate `Passes`.

Specification functions and predicates that carry no ensures of their own
are listed with the lemma that states their properties.

## Model

| member | source | states |
|---|---|---|
| Levels.InitTable | level.go:35-42 | registers NOTSET, DEBUG, INFO, WARNING, ERROR and CRITICAL in that order through `Register`; the resulting table is stated by `BuiltinsRegistered` |
| Levels.Register | level.go:62-78 | registration succeeds exactly when both the name and the rank are new |
| Levels.RegisterRejectsDuplicates | level.go:66-71 | a taken name is reported before a taken rank; either way NOTSET is returned and the registry is unchanged |
| Levels.RegisterAddsOneEntry | level.go:72-77 | a successful registration returns the rank, adds exactly one entry to each map and keeps every earlier entry |
| Levels.RegisterKeepsValid | level.go:72-76 | registration keeps the two maps mutual inverses and the maximum name length exact |
| Levels.Registry.AddLevel | level.go:62-78 | the registry's new state and results are those of `Register`, and validity is preserved |
| Levels.Registry.Init | level.go:35-42 | init registers the six built-ins in order |
| Levels.Registry.constructor | level.go:26-42 | after package initialisation the registry is valid and holds exactly the built-ins |
| Levels.BuiltinsRegistered | level.go:17-42 | the built-ins sit at ranks 0, 10, ..., 50 under their own names; the longest name has 8 characters |
| Levels.BuiltinLookups | level.go:44-58 | each of the six built-in ranks gives its name and each built-in name its rank; an unknown rank gives "" and an unknown name gives NOTSET |
| Levels.GetLevelName | level.go:46-50 | an unregistered level gives ""; a registered one gives a name that looks the level up again |
| Levels.GetLevelFromName | level.go:54-58 | an unknown name gives NOTSET; a known one gives a level whose name is that name |
| Levels.LevelString | level.go:81-87 | the text of a level is never empty; its two cases are stated by the two lemmas below |
| Levels.LevelStringUnregistered | level.go:81-85 | without a name the text is "Level(" + digits + ")" and the digits read back as the rank |
| Levels.LevelStringRegistered | level.go:81-87 | with a non-empty name the text is that name and it looks the level up again |
| Levels.MarshalJSON | level.go:90-92 | the JSON form is a quoted string |
| Levels.UnmarshalJSON | level.go:95-104 | succeeds exactly for a registered (unquoted) name and sets the level; otherwise the target keeps its value and the error names the string |
| Levels.MarshalRoundTrip | level.go:90-104 | unmarshalling a registered non-empty name's JSON gives the level back |
| Levels.MarshalUnregisteredFails | level.go:84-100 | when a level's text is no registered name, unmarshalling its JSON fails with that text and keeps the target |
| Levels.UnregisteredNeverRoundTrips | level.go:81-104 | no level without a name round-trips through JSON; when its text "Level(N)" is registered as another rank's name, unmarshalling silently gives that rank with no error |
| Levels.CollidingNameExample | level.go:62-104 | with the built-ins, `AddLevel("Level(5)", 7)` succeeds, and the JSON of the unnamed rank 5 then unmarshals to 7 without an error |
| Levels.SeverityOf | level.go:150-165 | each colour bucket is chosen exactly on its level range; the default branch is unreachable |
| Levels.SeverityMonotone | level.go:150-161 | a higher level never gets a lower colour bucket |
| Levels.ForLevel | level.go:150-165 | the theme's colour function of the level's bucket, which `SeverityOf` picks by level range |
| Levels.NoColorTheme | level.go:178-185 | every colour function returns its text unchanged |
| Text.DecimalValue | level.go:84 | reading the decimal rendering of a number gives the number back |
| Text.DecimalInjective | level.go:84 | distinct ranks render differently |
| Text.QuoteRoundTrip | level.go:91-96 | unquoting a quoted string gives the string back |
| Text.SortStrings | formatter.go:86 | the result is sorted and a permutation of the input |
| Text.SortedKeys | formatter.go:81-86 | the ascending sequence of a set of keys holds each key exactly once |
| Text.StrictlySortedUnique | formatter.go:81-86 | two strictly ascending sequences with the same elements are equal, so the key order does not depend on map iteration |
| Text.LessTransitive | formatter.go:86 | Go's string order is transitive |
| Text.LessTotal | formatter.go:86 | Go's string order is total |
| Text.IndexFunc | formatter.go:93 | the index of the first character satisfying the predicate, or -1 exactly when none does |
| Loggers.NewNode | logger.go:93-110 | a new logger is running at the given level and context, with no relations, a zero counter and empty queues |
| Loggers.ShouldProcessLevel | logger.go:420-424 | a logger processes a level when its minimum level is at most that level; `LevelOrdering` states the consequences |
| Loggers.IsLevel | logger.go:451-454 | the `shouldProcessLevel` answer for the given level |
| Loggers.IsDebug | logger.go:426-429 | the `shouldProcessLevel` answer for DEBUG |
| Loggers.IsInfo | logger.go:431-434 | as written, the DEBUG answer; see `HelpersAllTestDebug` and `IsInfoContradictsDoc` |
| Loggers.IsWarning | logger.go:436-439 | as written, the DEBUG answer; see `HelpersAllTestDebug` |
| Loggers.IsError | logger.go:441-444 | as written, the DEBUG answer; see `HelpersAllTestDebug` |
| Loggers.IsCritical | logger.go:446-449 | as written, the DEBUG answer; see `HelpersAllTestDebug` and `IsInfoContradictsDoc` |
| Loggers.Accepts | logger.go:224-229 | the intake test of `log`: the logger is running and the level passes; a stopped logger accepts nothing (`LevelOrdering`) |
| Loggers.LevelOrdering | logger.go:420-424 | for levels l1 < l2, a logger at l2 discards l1 and takes l2 and above; a stopped logger takes nothing |
| Loggers.HelpersAllTestDebug | logger.go:427-454 | as written, every level helper from IsInfo to IsCritical answers the DEBUG question |
| Loggers.IsInfoContradictsDoc | logger.go:431-449 | an INFO logger processes INFO but IsInfo is false; an ERROR logger processes CRITICAL but IsCritical is false |
| Loggers.IntendedHelpersOrdered | logger.go:431-449 | the corrected helpers answer for their own level and are ordered by severity |
| Loggers.ContextFromPairs | logger.go:333-344 | an odd list is padded with ""; the keys are exactly the strings at even positions; the odd key maps to "" |
| Loggers.PaddedPairs | logger.go:339-344 | the context built from the padded pairs has exactly the even-position keys, and an odd list's last key maps to "" |
| Loggers.PairsCtxDomain | logger.go:342-344 | the keys of the built context are exactly the strings at even positions |
| Loggers.PairsCtxLastWins | logger.go:342-344 | a repeated key keeps the value after its last occurrence |
| Loggers.Chain | logger.go:195-202 | the chain starts at the logger itself and names only loggers of the tree |
| Loggers.ChainShape | logger.go:195-202 | the chain steps parent by parent with strictly decreasing indices and ends at a logger without a parent |
| Loggers.ChainSuffix | logger.go:195-202 | the chain of any logger on a chain is the rest of that chain |
| Loggers.ChainEndsAtRoot | logger.go:195-202 | in a well-formed tree every chain ends at the root |
| Loggers.MergedContext | logger.go:203-214 | merged keys are those of the record and the chain; the record's value wins, then the nearest logger that has the key |
| Loggers.ReMergeIdentity | logger.go:203-217 | merging an already merged context again from any later point of the chain changes nothing |
| Loggers.AncestorsReproduceMerge | logger.go:203-217 | re-merging the originator's merged context at any ancestor reproduces it |
| Loggers.ContextPrecedenceExample | logger.go:203-214 | parent {x:1}, child {x:2, y:3} and call {y:4} merge to {x:2, y:4} |
| Loggers.Receivers | logger.go:214-229 | the loggers whose raw queue a record logged at a logger reaches; `ReceiversPrefix` characterises them |
| Loggers.ReceiversPrefix | logger.go:216-218 | the loggers a record reaches form the longest prefix of the chain where all accept and all but the last propagate |
| Loggers.Deliveries | logger.go:203-218 | what each receiving logger puts on its dispatch queue; `DeliveriesCarryOriginMerge` and `CascadeDelivers` state its properties |
| Loggers.DeliveriesCarryOriginMerge | logger.go:203-218 | every receiving logger dispatches the originating logger's merged record |
| Loggers.Logged | logger.go:224-233 | the arena after `log`: an accepted record bumps the counter and joins the raw queue; properties in `StoppedLoggerIsSilent`, `ProcessStepEffect` and `LoggerTree.LogRecord` |
| Loggers.ProcessStep | logger.go:187-221 | the arena after one iteration of `processRecords`; its effect is stated by `ProcessStepEffect` |
| Loggers.ProcessStepEffect | logger.go:190-218 | a step moves the head record, with the merged context, from the raw queue to the dispatch queue; the parent's counter and raw queue grow by that record exactly when propagation applies and the parent accepts; every other logger is unchanged |
| Loggers.LogThenProcessForwards | logger.go:224-233 | a record logged and processed at one logger is dispatched there and forwarded exactly when its parent accepts it |
| Loggers.Cascade | logger.go:187-233 | the process steps a logged record sets off: the logger's, then each parent's that the record was forwarded to |
| Loggers.CascadeDelivers | logger.go:187-233 | logging at an idle tree and running the steps it sets off leaves the tree idle and appends to each logger's dispatch queue exactly the records `Deliveries` gives it |
| Loggers.StoppedLoggerIsSilent | logger.go:227-229 | logging to a stopped logger changes nothing |
| Loggers.RemoveFirst | logger.go:129-148 | the children after `removeChild`; `RemoveFirstSpec` and `RemoveFirstMembers` state its properties |
| Loggers.RemoveFirstSpec | logger.go:129-148 | without the child the list is unchanged; otherwise its first occurrence goes, order is kept and the list is one shorter |
| Loggers.RemoveFirstMembers | logger.go:136-148 | on a list without duplicates removal drops exactly that child |
| Loggers.IndexOf | logger.go:135-141 | the first index of the child, or -1 exactly when it is absent |
| Loggers.ShiftOut | logger.go:143-147 | shifting left over position k and truncating drops exactly element k |
| Loggers.CopyInto | logger.go:206-213 | copying a map into another gives the right-biased union |
| Loggers.AddedLeaf | logger.go:112-127 | the arena after `SubLogger`: the new logger is appended and becomes the parent's last child; `AddedLeafWellFormed` and `LoggerTree.SubLogger` state its properties |
| Loggers.AddedLeafWellFormed | logger.go:112-127 | creating a sub-logger keeps the tree well formed |
| Loggers.Stopped | logger.go:239-247 | the arena after `Stop`; `StoppedWellFormed` and `LoggerTree.Stop` state its properties |
| Loggers.StoppedWellFormed | logger.go:239-247 | stopping keeps the tree well formed and detaches the logger from its parent |
| Loggers.LoggerTree.constructor | logger.go:11 | the root is a running NOTSET logger with an empty context |
| Loggers.LoggerTree.IsRunning | logger.go:268-273 | a logger that is not running takes no record: logging to it leaves the tree unchanged |
| Loggers.LoggerTree.AddChild | logger.go:118-127 | the child is appended to the parent's children and its parent and propagation flag are set |
| Loggers.LoggerTree.SubLogger | logger.go:112-116 | a new DEBUG logger with the given context becomes the last child; the tree stays well formed |
| Loggers.LoggerTree.RemoveChild | logger.go:129-149 | the parent's children lose the first occurrence of the child, nothing else changes |
| Loggers.LoggerTree.Stop | logger.go:239-273 | the logger is stopped (`IsRunning` turns false) and removed from its parent's children; the tree stays well formed |
| Loggers.LoggerTree.LogRecord | logger.go:224-233 | an accepted record bumps the counter and joins the raw queue; otherwise nothing changes |
| Loggers.LoggerTree.Log | logger.go:332-352 | the record carries the context built from the padded pairs and goes through `log` |
| Loggers.LoggerTree.LogCtx | logger.go:355-363 | the record carries the given context and goes through `log` |
| Loggers.LoggerTree.BuildChain | logger.go:195-202 | the loop yields exactly the ancestor chain |
| Loggers.LoggerTree.MergeContexts | logger.go:203-213 | the nested loops yield the chain contexts root first, overridden by the record's |
| Loggers.LoggerTree.ProcessRecord | logger.go:190-218 | one iteration performs the process step and keeps the tree well formed |
| Handlers.Filter.ShouldLog | handler.go:83-87 | a level filter compares levels, any other filter is its own answer; `LevelFilterPasses` states the level case |
| Handlers.LevelFilterPasses | handler.go:84-87 | a level filter passes exactly the records at or above its level |
| Handlers.Passes | handler.go:89-102 | no filters, or some filter accepts; `ShouldLogAll` and `PassesMonotone` state its properties |
| Handlers.ShouldLogAll | handler.go:92-102 | no filters pass everything; otherwise the result is true exactly when some filter accepts |
| Handlers.PassesMonotone | handler.go:92-101 | adding a filter to a non-empty list never turns acceptance into rejection, while the empty list can be rejected by one filter |
| Handlers.CombiningHandle | handler.go:44-50 | each handler is called once, in order, with the same record; the last handler's error is returned, or nil when there are none |
| Handlers.Closers | handler.go:53-59 | the identities of the closeable handlers in list order; its properties are in `ClosersAppend` and `ClosersExactly` |
| Handlers.ClosersAppend | handler.go:53-59 | closing a concatenation closes the first list's closers, then the second's; one handler is closed exactly when it is a closer |
| Handlers.ClosersExactly | handler.go:53-59 | cutting the list anywhere splits the closed identities at the same point; each handler contributes its identity exactly when it is a closer; every closer is closed and nothing else |
| Handlers.CombiningClose | handler.go:53-59 | the loop closes exactly the closeable handlers |
| Handlers.StdoutHandle | handler.go:115-127 | a rejected record writes nothing and returns nil; otherwise the formatted bytes go through the `Fprintln` rendering and the writer's error is returned |
| Handlers.StdoutPrintsByteList | handler.go:125 | the formatted line "a\n" comes out as "[97 10]" and a newline |
| Handlers.StdoutHandleIntended | handler.go:115-127 | a rejected record writes nothing; otherwise exactly the formatted line is written |
| Handlers.FprintlnBytes | handler.go:125 | the `%v` form of a byte slice is bracketed and followed by a newline |
| Formatter.NeedsQuote | formatter.go:117-122 | space, `"`, `\`, `=` and non-printable characters need quoting; `NeedsQuoteAscii` spells out the ASCII case |
| Formatter.NeedsQuoteAscii | formatter.go:119-122 | on ASCII a character needs quoting exactly when it is space, `"`, `\`, `=` or a control character |
| Formatter.KeyQuoting | formatter.go:93 | a key is quoted exactly when it is empty or some character needs quoting |
| Formatter.Entry | formatter.go:92-104 | one `key="value"` entry with the key quoted when needed; `EntryShape` states its shape |
| Formatter.EntryShape | formatter.go:93-104 | an entry opens with `"` exactly for keys needing quotes; an unquoted key has no space or `=` and its entry is key, `=`, value in quotes |
| Formatter.EntriesFront | formatter.go:91-108 | entries are the first entry, one space and the rest, with no space after the last |
| Formatter.EntriesEnd | formatter.go:101-107 | the entries are empty only without keys and end with a quote |
| Formatter.ContextPart | formatter.go:88-111 | the bracketed entries, empty without keys; `ContextBrackets` states its shape |
| Formatter.ContextBrackets | formatter.go:88-111 | " [" and "]" appear exactly when the context is non-empty and enclose the sorted entries |
| Formatter.RegisteredPadAtLeastTwo | formatter.go:75 | every registered non-empty name leaves at least two padding spaces |
| Formatter.UnregisteredLevelTooLong | formatter.go:75-76 | with the built-ins, level 1000 gives "Level(1000)", too long for the column, so the padding count would be negative |
| Formatter.LevelColumn | formatter.go:72-77 | the coloured level name, padding to two past the longest name, and one space; `ColumnsAlign` and `RegisteredPadAtLeastTwo` state its width |
| Formatter.ColumnsAlign | formatter.go:72-77 | without colours every level column has the same width |
| Formatter.CollectKeys | formatter.go:81-85 | the collected keys are the context's keys, each once |
| Formatter.SortedCollectedKeys | formatter.go:81-86 | sorting the collected keys gives the ascending key sequence, whatever the iteration order |
| Formatter.WriteEntry | formatter.go:92-104 | the writes of one key=value pair form the entry |
| Formatter.WriteContext | formatter.go:88-111 | the loop writes the bracketed entries separated by single spaces |
| Formatter.ThemedTerminalFormat | formatter.go:65-115 | the output is the terminal line: level column, message, sorted context entries, newline |
| Formatter.TerminalLine | formatter.go:65-115 | the terminal line always ends with a newline |
| Formatter.Spaces | formatter.go:76 | the padding consists of exactly n spaces |
| Formatter.SimpleFormat | formatter.go:34-52 | the output always ends with a newline |
| Formatter.Location | formatter.go:42-48 | the `[file:line]` suffix; `LocationShape` states its shape |
| Formatter.LocationShape | formatter.go:42-48 | the suffix is non-empty exactly for a non-empty file and a positive line; it then names the file and its digits read back as the line |
| Formatter.SimpleFormatLocation | formatter.go:42-49 | the `[file:line]` suffix appears exactly for a non-empty file and a positive line, and its digits read back as the line |

## Left out

- Goroutines and channels are not modelled:
  - the `handle` loop and the `processRecords` select loop;
  - `notifyFinished`, `wait`, `Wait`, `WaitTimeout`, `WaitAll`, `StopAndWait` and `StopAndWaitTimeout`;
  - the mutexes, the atomic counter and `runtime.Gosched`.

  The queues are sequences: `ProcessRecord` is one loop iteration and `LogRecord` is a send. Buffer capacities (2048) and blocking are not modelled.
- Dispatching records to a logger's handler (`handle`) is not modelled. Handler identity is kept only inside `Handlers`.
- Loggers.LoggerTree.Stop: requires a running logger, because closing the already closed raw channel panics in Go.
- Loggers.LoggerTree.RemoveChild: setting the vacated slot to nil only matters for garbage collection and is left out. The diagnostic print for a nil receiver is left out too; an index always names a logger.
- Loggers.LoggerTree.AddChild: requires the two loggers to differ. Only `SubLogger` calls it, always with a fresh child.
- Loggers.LoggerTree.Log: the clock (`time.Now().UTC()`) is the parameter `now`.
- The Debug/Info/Warning/Error/Critical wrappers and their Ctx variants only fix the level of `Log`/`LogCtx`, so they are left out.
- `New`, `createLogger`'s channel set-up and the package root logger's goroutines are left out. The root is the constructor of `LoggerTree`.
- Context values of arbitrary Go type are opaque (`Value.Opaque`). `%+v` is the parameter `show`.
- `unicode.IsPrint` outside ASCII is the parameter `printable`.
- The theme colour functions are uninterpreted, and `DefaultTheme`'s colour library is left out. `NoColorTheme` is modelled as the identity. In Go it applies `fmt.Sprintf` with the name as format, which differs only for names containing `%`.
- Level is an unbounded natural number; Go's `uint` width is not modelled.
- Go's `len` counts UTF-8 bytes. The model counts characters, one byte per character, so names, padding and `Fprintln`'s byte list agree with Go only for ASCII text.
- `%q` and `strconv.Unquote` are modelled by escaping only `"` and `\`. Go's other escapes are not modelled: control characters, non-printable runes, `\u`, `\x` and octal escapes.
- `Unquote` accepts only double-quoted text. Go's `strconv.Unquote` also accepts back-quoted raw strings and single-quoted one-rune literals. So a JSON input such as `` `INFO` `` is an error in the model, while Go sets the level to INFO.
- `StreamHandler`, `JSONFormat`, `TerminalFormat`'s terminal check, replaceable_handler.go, pool.go, syslog_handler.go, default.go, benchmark/ and example/ are not part of this model.
- `GetLogger`, `FullName`, `SubLoggerOptions`, `SetHandler` and `MemoryHandler` are used by the tests but defined nowhere, so they are not part of this model.
- `SimpleFormat` takes the record's time already formatted (`timeText`), plus `file` and `line`. `Record` in record.go has no File or Line field.
- `defaultFormatter` is not defined in the modelled files, and is a parameter of `StdoutHandle`. The write error of the output stream is the parameter `writeErr`.
- `sort.Strings` sorts in place. The model sorts a sequence by value (`SortStrings`), so in-place update is not captured; the result is the same.
- Formatter.ThemedTerminalFormat: requires that the level's text is at most two characters longer than the longest registered name. Otherwise the padding count is negative and `bytes.Repeat` panics (see `UnregisteredLevelTooLong`).
- `processRecords` forwards the already merged record to the parent's `log` (logger.go:214-217). So an ancestor's handlers see the child's context keys (`DeliveriesCarryOriginMerge`).

## Findings

| source | as written | input that shows it | evidently intended | confidence | as-written member | corrected member |
|---|---|---|---|---|---|---|
| logger.go:431-449 | `IsInfo`, `IsWarning`, `IsError` and `IsCritical` all call `shouldProcessLevel(DEBUG)` | a logger whose minimum level is INFO: `IsInfo()` is false although INFO records are processed | each helper tests its own level, as its doc comment says | high (not executed) | Loggers.IsInfoContradictsDoc | Loggers.IntendedHelpersOrdered |
| handler.go:125 | `fmt.Fprintln(_out, formatter.Format(record))` passes a `[]byte`, which `%v` prints as a list of byte values | a record formatted as "a\n" prints "[97 10]" and a newline | write the formatted line itself | medium (not executed) | Handlers.StdoutPrintsByteList | Handlers.StdoutHandleIntended |
