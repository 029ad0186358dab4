# gomu core logic in Dafny

gomu is a terminal music player written in Go that embeds an anko script interpreter for its configuration. This project models and proves the parts of the player whose behaviour comes from their logic rather than from the terminal UI:

- **Configuration conversion** (`yaml/convert.go`). The interpreter's flat configuration map, keyed `section.field` or `field`, is turned into the nested map written out as YAML.
- **Script modules loaded at startup** (`start.go`):
  - `Event`: a registry of named hooks, with `add_hook` and `run_hooks`.
  - `List`: `collect`, `filter` and `reduce`.
  - `Keybinds`: three keybind tables, with `def_g`, `def_p` and `def_q`.
- **Startup wiring on the host side** (`start.go`):
  - `setupHooks` registers one forwarding hook per lifecycle event.
  - The default global command table and the loop that registers it.
  - The `Queue.get_focused` accessor.
  - The song-finished handler.
  - The application-wide input capture, which decides whether a key goes to the focused widget, cycles the panels or runs a global keybinding.
- **Tag-editor popup** (`tageditor.go`):
  - Focus cycling between its widgets.
  - The lyric map and the sorted option list built from a file's lyric frames.
  - The "Delete Lyric" handler.
  - The preview shown when the popup opens.

Go map iteration has no fixed order. Loops that range over a map (`Convert`, the command registration, collecting the lyric options) are therefore modelled with a nondeterministic choice of the next key, so the proofs hold for every iteration order.

Code that changes state step by step is modelled as methods with loops:
- `Convert`;
- the script list functions;
- `run_hooks`;
- `setupHooks`;
- the registration loop;
- `cycleFocus`;
- `loadTagMap`;
- the delete handler.

Objects whose fields are updated are classes: the hook registry, the keybind module, the playback session, the focus flex and the lyric panel. Each method is proved against a specification function (`WithHook`, `Replay`, `Kept`, `FoldLeft`, `LyricMap`, `Without`, `AfterFinish`, `NextIndex`, `FirstFocused`, `Describes`), and lemmas prove the properties of those functions. The per-entry `convert` writes into the map it is given; it is modelled as a function that returns the updated map. The input-capture decision computes a value and is a function.

The modules, one per concern:
- `Wrappers`: Option and Result.
- `Strings`: `strings.Contains`, `strings.Split` and byte-wise sorting.
- `Sequences`: filter and fold reference definitions.
- `YamlConvert`.
- `Events`.
- `ScriptList`.
- `Keybinds`.
- `Playback`.
- `InputCapture`.
- `TagEditor`.

### Points of behaviour worth knowing

- **`run_hooks` stops at the first failing callback:** an error raised by a callback propagates out of the `for` loop of `run_hooks` (start.go:189-191), so the callbacks after it are not called. Callbacks read and change shared script state, so the same callback can succeed on one call and fail on the next. `Events.HookRegistry.RunHooks` therefore takes the outcome of each call, by its position in the firing, as a parameter and stops at the first failing call. `Events.HookRegistry.RunTwiceFailingSecond` shows a callback registered twice that succeeds and then fails.
- **Configuration bindings on default keys are overridden:** the configuration files run (start.go:382) before the default table is registered (start.go:524-527). A configuration binding on one of the sixteen default keys is therefore replaced by the built-in command, and every other configuration binding stays. `Keybinds.StartupBindings` states both.
- **Doubly nested key in the test:** the accompanying test (yaml/convert_test.go:40, 75-77) expects `color.now_playing.title` to be nested two levels deep. `convert` refuses every key with more than one dot (yaml/convert.go:25-27). The model follows the code, and `YamlConvert.NowPlayingTitleRefused` proves that this key is refused with "key … is too deep".
- **Bare key before a dotted key:** when a bare key `a` is stored before a key `a.b`, the type assertion at yaml/convert.go:32 panics. The model turns this panic into the error `NotATable`, whose text is the panic's message ("interface conversion: interface {} is int, not map[string]interface {}" for an int). `YamlConvert.CollisionDependsOnOrder` shows that the outcome depends on iteration order.

## Model

| member | source | states |
|---|---|---|
| YamlConvert.ConvertEntry | yaml/convert.go:22-48 | an entry is stored without error only if its key has at most one dot (two parts after splitting) and its value is a string, int or bool |
| YamlConvert.ShapeOf | yaml/convert.go:23-25 | the section and field of a one-dot key contain no dot |
| YamlConvert.ShapeOfPair | yaml/convert.go:23-24 | the key `section + "." + field` of two dot-free parts reads as exactly that section and field |
| YamlConvert.ShapeOfDeep | yaml/convert.go:25 | any key with two or more dots is too deep |
| YamlConvert.NestedJoin | yaml/convert.go:24 | a one-dot key is determined by its section and field (the key is their join) |
| YamlConvert.ConvertEntryByShape | yaml/convert.go:22-48 | the full outcome by key shape: a bare key is stored or refused as unsupported; a deep key changes nothing and fails; a section bound to a scalar fails the table assertion; otherwise the section's table is created if missing and is kept even when the value is refused |
| YamlConvert.FlatKeyStored | yaml/convert.go:36-42 | a dot-free key with a supported value is stored at the top level, without error |
| YamlConvert.NestedKeyStored | yaml/convert.go:29-34 | `section.field` stores the value in the section's table and keeps the fields stored there before |
| YamlConvert.DeepKeyRefused | yaml/convert.go:25-27 | a key of three or more parts leaves the map unchanged and reports TooDeep with that key |
| YamlConvert.NowPlayingTitleRefused | yaml/convert.go:25-27 | `color.now_playing.title`, which the test expects to nest, is refused as too deep |
| YamlConvert.CollisionDependsOnOrder | yaml/convert.go:29-32 | with `a` and `a.b` both present, `a.b` then `a` succeeds with `a` bound to the scalar, while `a` then `a.b` fails |
| YamlConvert.StepDescribes | yaml/convert.go:14-17 | the per-entry step preserves the description of the converted entries and, when sections do not clash, fails exactly on an entry that is not accepted, with that entry's error |
| YamlConvert.Convert | yaml/convert.go:12-20 | success implies every entry is accepted; when no bare key names a section, success holds exactly when every entry is accepted, the result holds exactly the converted entries (top-level keys, scalars, tables and their field sets), and an error is the error of some refused entry, with the text "key … is too deep" or "unsupported type …" for that entry |
| YamlConvert.MessageIdentifies | yaml/convert.go:26 | the error texts ("key %s is too deep", "unsupported type %s", and the panic's message) tell the errors apart: equal texts mean the same error, except that the panic's text does not name the section |
| Strings.ContainsIff | yaml/convert.go:23 | `strings.Contains(s, sub)` holds exactly when `sub` stands at some position of `s` |
| Strings.Split | yaml/convert.go:24 | `strings.Split` on one character: at least one part, no part contains the separator, exactly one part when the separator is absent |
| Strings.JoinSplit | yaml/convert.go:24 | joining the parts with the separator gives the string back |
| Strings.LessIff | tageditor.go:451 | Go's string `<`, which `sort.Strings` uses, is the lexicographic order: `a < b` exactly when, at the first position where they differ, `a` has ended or has the smaller character |
| Strings.LessTransitive | tageditor.go:451 | the order is transitive |
| Strings.LessTotal | tageditor.go:451 | two different strings are ordered one way or the other |
| Strings.Sort | tageditor.go:451 | `sort.Strings`: the result is sorted in byte-wise order and is a permutation of the input |
| Events.WithHook | start.go:170-180 | `add_hook` appends `f` to the name's list (an unseen name gets `[f]`) and leaves every other name's list alone |
| Events.ReplayAppends | start.go:170-180 | after any series of registrations, a name's list is its old list followed by everything registered under it, in order |
| Events.DuplicatesKept | start.go:170-180 | registering the same callback twice keeps both |
| Events.HookRegistry.constructor | start.go:168 | the registry starts empty |
| Events.HookRegistry.AddHook | start.go:170-180 | the new registry is `WithHook` of the old one |
| Events.HookRegistry.RunHooks | start.go:182-192 | an unregistered name calls nothing; otherwise the callbacks called are a prefix of the registered list in registration order; the firing fails exactly when the last call made fails, every earlier call succeeded, and all callbacks are called when no call fails. Outcomes are per call, so a duplicated callback may succeed and then fail |
| Events.HookRegistry.RunTwiceFailingSecond | start.go:182-192 | with `f` registered twice and only the second call failing, the firing calls `f` twice and fails |
| Events.SetupHooks | start.go:109-131 | each of the six lifecycle events gets exactly one more hook, forwarding to `Event.run_hooks` for that event, and no other name changes |
| Events.ForwardingRegistrations | start.go:111-130 | one registration per lifecycle event |
| Events.ForwardingFor | start.go:120-130 | registering one forwarding hook per name of a list of distinct names registers each listed name exactly once and nothing else |
| Events.ForwardingOnePerEvent | start.go:111-130 | each lifecycle event is registered exactly once, with its own forwarding hook, and no other name is registered |
| ScriptList.Collect | start.go:140-146 | the result has one element `f(l[k])` per element of `l`, in order |
| ScriptList.Filter | start.go:148-156 | the result is the order-preserving filter of `l` by `f`; `x` is in the result exactly when it is in `l` and `f(x)` holds |
| Sequences.KeptMembers | start.go:148-156 | an element survives the filter exactly when it is in the list and satisfies the predicate |
| Sequences.KeptIsSubsequence | start.go:148-156 | the filter's result is a subsequence of the input, embedded at increasing positions |
| ScriptList.Reduce | start.go:158-163 | the result is the left fold of `f` over `l` from `acc` |
| Sequences.FoldLeftAppend | start.go:158-163 | folding a concatenation folds the second part from the result of the first |
| Keybinds.KeybindModule.constructor | start.go:197-200 | the three tables start empty |
| Keybinds.KeybindModule.DefG | start.go:202-204 | `def_g` binds the key in the global table only |
| Keybinds.KeybindModule.DefP | start.go:206-208 | `def_p` binds the key in the playlist table only |
| Keybinds.KeybindModule.DefQ | start.go:210-212 | `def_q` binds the key in the queue table only |
| Keybinds.RegisterCommands | start.go:524-527 | whatever the iteration order, every key of `cmds` is bound in the global table to its command, no other descriptor is added or changed, and the playlist and queue tables are untouched |
| Keybinds.RegisterFresh | start.go:524-527 | on a fresh module, the loop leaves a global table whose descriptors are exactly the one-character descriptors of the keys of `cmds`, one binding per key, each to its command; the other tables stay empty |
| Keybinds.StartupBindings | start.go:505-527 | on the module the configuration files have already bound keys in, registering the default table binds `+` and `=` to volume up, `-` and `_` to volume down and `q` to quit whatever the configuration bound there; the bound descriptors are the configured ones plus every default key, at least one binding per default key; every other configured binding is kept (configuration ran at start.go:382); the playlist and queue tables are unchanged |
| Keybinds.RegisteredTable | start.go:524-527 | after the loop, the bound descriptors are those bound before plus the descriptors of the command keys, there are at least as many bindings as commands, and a descriptor outside the commands keeps its binding |
| Keybinds.DescriptorIff | start.go:525 | the descriptor `"%c"` of a key is exactly the one-character string of that key |
| Keybinds.DefaultAliases | start.go:505-522 | a table binding every default key to its command binds the aliases `+`/`=` and `-`/`_` to one command each and `q` to quit |
| Playback.GetFocused | start.go:96-103 | nil exactly when the current index is outside the queue's items, otherwise the item at that index, which is therefore one of the queue's items |
| Playback.AfterFinish | start.go:450-464 | in loop mode the finished track is appended at the tail; without loop mode the queue is unchanged; the idle bar is shown exactly when the queue is empty without loop mode |
| Playback.LoopSingleTrack | start.go:450-458 | in loop mode the last finished track over an empty queue is queued again and played |
| Playback.Session.OnSongFinish | start.go:443-465 | the subtitle state is cleared, and the queue and the action taken are those of `AfterFinish` |
| InputCapture.Decide | start.go:530-567 | keys pass through untouched while typing (REPL or tag-editor input open, or an input page in front) and for Tab on a confirmation popup; Tab cycles the panels exactly otherwise; a global binding runs exactly when the key reaches the lookup and is bound; the event is consumed exactly when a binding ran |
| InputCapture.NamedPopupsAreInputs | start.go:532-545 | both named popups are input pages, so the front-page test alone would pass their keys through |
| InputCapture.TabFallsThroughToKeybind | start.go:547-564 | Tab on the main page with a binding both cycles the panels and runs the binding |
| TagEditor.NextIndex | tageditor.go:391-399 | forward moves one on and wraps from the last widget to the first; reverse moves one back and wraps from the first to the last |
| TagEditor.NextIndexRoundTrip | tageditor.go:391-399 | a forward step and a reverse step undo each other |
| TagEditor.FirstFocused | tageditor.go:386-389 | the position of the first widget with focus, with none before it, or none at all |
| TagEditor.FirstFocusedAt | tageditor.go:386-389 | a focused widget at `i` with none focused before it is the first focused |
| TagEditor.FocusFlex.CycleFocus | tageditor.go:385-405 | if no widget has focus nothing changes; otherwise the application focus and the flex's focused item both move to the `NextIndex` neighbour of the first focused widget |
| TagEditor.LyricMapKeys | tageditor.go:440-447 | the lyric map's keys are exactly the content descriptors of the frames |
| TagEditor.LastFrameWins | tageditor.go:440-447 | when several frames share a descriptor, the last one supplies the lyrics |
| TagEditor.LoadTagMap | tageditor.go:425-454 | a non-audio file ("not an audio file") and an open failure (the library's message) give their errors; a malformed frame fails ("USLT error") exactly when present; on success the map is `LyricMap` of the frames and the options are its keys, each once, strictly sorted |
| TagEditor.Without | tageditor.go:154-160 | the removed option is absent and every other option is kept |
| TagEditor.WithoutKeepsSorted | tageditor.go:154-161 | removing an option keeps a strictly sorted option list strictly sorted |
| TagEditor.RemoveOption | tageditor.go:154-161 | the loop builds exactly the option list without `langExt`, in order |
| TagEditor.WithoutKeepsKeys | tageditor.go:151-161 | when the options are the map's keys, deleting one from both keeps them so |
| TagEditor.LyricPanel.constructor | tageditor.go:284-290 | the popup opens on option 0 (none when there are no options) with `PreviewOf` that option; options that are the sorted keys of the map, as a successful load returns them, make the panel valid |
| TagEditor.LyricPanel.DeleteLyric | tageditor.go:141-182 | with no options only the "No lyric embeded." notice is shown; otherwise the current option is removed from the map and the option list (even when the file update failed, which shows an error popup), the first remaining option becomes current and its lyrics are previewed (the notice with an empty label when none remain); options stay the sorted map keys |
| TagEditor.PreviewOf | tageditor.go:284-290 | an option with no lyric text previews the notice with an empty label; otherwise its lyrics with its label; the preview text is never empty |

## Left out

- All terminal I/O: tview widgets, popups and drawing are reduced to the state values they show (the preview text and title, the popup kind and text, the current option).
- The anko interpreter itself. Script values are type parameters and script functions are total Dafny functions.
- ScriptList.Collect: in `List.collect` (start.go:143), `result += f(x)` splices `f(x)` into the result when it is itself a list; the model appends `f(x)` as one element.
- ScriptList.Filter: in `List.filter` (start.go:152), `result += x` splices `x` into the result when it is itself a list, so `filter([[1, 2], [3]], f)` with `f` always true gives `[1, 2, 3]`; the model keeps each list element as one element, so its contract holds only for lists whose elements are not lists.
- Hook execution errors: the host-side hook only logs them, so they are left out of `Events.SetupHooks`. A callback failure inside `run_hooks` is modelled as the `fails` parameter, giving the outcome of each call of the firing; what makes a script callback fail is not modelled.
- Events.SetupHooks: the host's hook table (`hook.EventHook`, start.go:109 and 122) belongs to a package that is not part of this model. It is modelled by the same registry as the script's `Event` module, on the assumption that its `AddHook` appends like `add_hook`; the contract's "exactly one more hook per event" rests on that assumption.
- Keybinds.RegisterCommands: the error returned by `gomu.anko.Execute(src)` (start.go:526) is ignored. If the interpreter cannot resolve a command name, that key stays unbound. The model binds every key, so it assumes that every command name in the table is defined in the interpreter.
- Opening the tag and reading its frames from disk (id3v2), and `embedLyric`'s file update. These are parameters: the read outcome, and the embed error.
- The `die` call on a malformed lyric frame exits the program. The model reports it as the error `UsltError`.
- Go maps are references, and `convert` writes into the inner map in place. The model passes maps as values and returns the updated map, which gives the same final contents.
- `enqueue` and `playQueue` of the queue: loop-mode re-enqueueing is an append at the tail, and starting playback is reported as the action `PlayQueue`. Enqueue errors, which are only logged, are left out.
- The subtitle mutex in the song-finished handler: concurrency is not modelled.
- `cyclePanels2`, `KeybindExists` and `ExecKeybind` of the input capture. The panel switch is a flag. The keybind lookup is a map lookup on the event's descriptor. Errors from a binding are shown in a popup and still consume the key; that popup is not modelled.
- `myFlex.Focus` (focus delegation to tview) and the construction of the tag-editor form, including its fetch-lyric and save handlers. The fetch handler declares `popupLyricMap` again with `:=` inside its goroutine, so the popup's own map is not updated; this path is not part of this model.
- The YAML marshalling in yaml/yaml.go is not part of this model.
- The other startup work in `start.go` (argument parsing, built-in definitions, config execution, layout, signals) is not part of this model.
