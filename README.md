# goderive printer, modelled in Dafny

This project models the printer that goderive uses to assemble one generated Go
source file (`derive/printer.go`). The printer collects printed lines into a
buffer at the current tab indentation and remembers whether anything was
printed. It also keeps an import registry, a map from alias to import path.
An import is registered only when its `Import` closure is first called. The
closure strips any vendoring prefix from the path. It prefers the caller's
short name as the alias. When that name already means another path, it falls
back to the path sanitised into an identifier. `WriteTo` renders the header,
the package clause, an import block sorted by path, and then the body.

Files:

- `strings.dfy` (module `StringLib`) models the Go library calls the printer
  makes: `strings.LastIndex`, `strings.Split` on one separator character, Go's
  string order and `sort.Strings`. Each comes with the facts the rest of the
  model needs.
- `registry.dfy` (module `Registry`) holds the pure helpers `unvendor`,
  `badToUnderscore`, `makeFullpath` and `makeAlias`. It also has the closure's
  registration step as a function on the map (`Resolve`), and a whole
  generation pass of closure calls on paths already unvendored (`RunRequests`).
- `printer.dfy` (module `Printer`) has the `printer` struct as class `Printer`,
  the closure as class `Import` with its captured `name` and mutable `path`,
  and `WriteTo` with its two loops.

Panics are explicit `Panic` results carrying the source's message. This covers
`Out` on an empty indentation and an `Import` whose fallback key already names
another path. Each mutating method states the whole new state on every path
the Go program survives. Where a panic would end the program, the methods that
chain several calls (`CallAroundAnother`) say nothing about the state left
behind. Results and new states are tied to functions (`Resolve`, `Unvendor`,
`Header`, `ImportBlock`), and the properties are lemmas about those functions.

A path requested under two names is registered under both. For example,
`NewImport("a", "p")()` followed by `NewImport("b", "p")()` stores `p` under
`a` and under `b`, at line 88 each time. `WriteTo` then writes two lines for
`p`. Both carry the one qualifier that `pathToQual` kept for `p` (line 142), and
which key that is depends on map iteration order. `ImportLinesOf` describes
exactly the outputs that some iteration order produces: a path appears once per
key, and all of its lines carry the same key.
`RenderingIsDeterministicWhenInjective` proves that the output is fixed when no
path has two keys.

## Model

| member | source | states |
|---|---|---|
| `StringLib.LastIndex` | derive/printer.go:62 | the result is -1 or an index where the pattern occurs, and no occurrence starts after it |
| `StringLib.Split` | derive/printer.go:77 | at least one piece, no piece contains the separator, and joining the pieces with it gives the input back |
| `StringLib.Sort` | derive/printer.go:140 | the result is non-decreasing in Go's string order and is a permutation of the input |
| `StringLib.SortedUnique` | derive/printer.go:140 | two sorted sequences with the same elements are equal, so the sorted order of a set of paths is unique |
| `Printer.Printer.constructor` | derive/printer.go:45-47 | a new printer has the package name, an empty body, no indentation, no imports, and has no content |
| `Registry.BadToUnderscore` | derive/printer.go:49-54 | the result is a letter, digit or `_`; it equals the input exactly when the input is one; otherwise it is `_` |
| `Registry.Unvendor` | derive/printer.go:60-68 | the result is a suffix of the path; it is the whole path exactly when `/vendor/` does not occur; otherwise a `/vendor/` sits right before it and no later occurrence starts; the result contains no `/vendor/` |
| `Registry.UnvendorIdempotent` | derive/printer.go:60-68 | unvendoring twice equals unvendoring once |
| `Registry.VendoredCopySameCanonical` | derive/printer.go:60-68 | `prefix + "/vendor/" + p` and `p` unvendor to the same path `p` when `/vendor/` does not occur in `"/" + p` |
| `Registry.MakeFullpath` | derive/printer.go:70-72 | the length is kept, every character is a letter, digit or `_`, and each character is the input's mapped by `BadToUnderscore` |
| `Registry.FullpathOfKey` | derive/printer.go:70-72 | a string of letters, digits and `_` is its own fallback key |
| `Registry.MakeFullpathIdempotent` | derive/printer.go:70-72 | sanitising a sanitised path changes nothing |
| `Registry.MakeAlias` | derive/printer.go:74-79 | the alias is the suffix of the sanitised path after its last `_` (all of it when it has none), and contains no `_` |
| `StringLib.LastPieceUnique` | derive/printer.go:77-78 | only one string is the piece after the last separator, so `MakeAlias`'s contract determines the alias |
| `Registry.Resolve` | derive/printer.go:84-100 | the call panics exactly when `name` names another path and the fallback key also names another path; otherwise it returns `name` if `name` is free or already names the path, else the fallback key; the returned key names the path, only that key is added, and every earlier entry keeps its value |
| `Registry.ResolveAgainIsStable` | derive/printer.go:85-100 | after a successful registration, the same name and path give the same key and the same map again |
| `Registry.LaterCallIsStable` | derive/printer.go:82-101 | a later call of one closure, which unvendors its captured path again, returns the first call's key and adds nothing, whatever other closures registered in between, as long as they changed no entry |
| `Registry.RunRequestsKeepsEntries` | derive/printer.go:87-99 | over a completed pass of closure calls, every entry present before the pass keeps its value |
| `Registry.RunRequestsSound` | derive/printer.go:87-100 | over a completed pass, each call's key names that call's path in the final map |
| `Registry.DistinctPathsGetDistinctKeys` | derive/printer.go:87-100 | in a completed pass, calls with different paths return different keys |
| `Registry.SettledRequestsKeepKey` | derive/printer.go:87-100 | in a completed pass, a request for a name and path already registered at some key gets that key every time |
| `Registry.RepeatedRequestSameKey` | derive/printer.go:87-100 | in a completed pass, two requests with the same name and path get the same key |
| `Registry.CollisionFallsBackToFullpath` | derive/printer.go:91-100 | with `fmt` taken by `fmt`, a second package asking for `fmt` at `x/fmt` gets `x_fmt`, and the map gains `x_fmt -> x/fmt` |
| `Printer.Printer.NewImport` | derive/printer.go:81-82 | the handle captures the name, the path and the printer, and the registry is not touched |
| `Printer.Import.Call` | derive/printer.go:82-101 | the captured path is replaced by its unvendored form; the result and the new registry are those of `Resolve` on the old registry; a panic leaves the registry as it was; body, indentation and content flag are unchanged |
| `Printer.CallTwice` | derive/printer.go:82-101 | calling one handle twice returns the same result both times; on success the alias and registry are those the first call's `Resolve` gives, and on a panic the registry is unchanged; the handle's path ends unvendored, and body, indentation and content flag are unchanged |
| `Printer.CallAroundAnother` | derive/printer.go:82-101 | with another handle of the same printer (or the same handle) called in between, the third call returns the first call's alias, and the registry is what the first two resolutions made it |
| `Printer.Printer.P` | derive/printer.go:104-107 | the content flag is set, and the body gains the old indentation, the text and a newline; indentation and imports are unchanged |
| `Printer.Printer.In` | derive/printer.go:109-111 | the indentation gains exactly one tab and stays all tabs |
| `Printer.Printer.Out` | derive/printer.go:113-119 | it panics with the source's message exactly when the indentation is empty, leaving it unchanged; otherwise it removes one tab |
| `Printer.InThenOutRestores` | derive/printer.go:109-119 | on an all-tab indentation, adding a tab and then dropping the first character gives the indentation back |
| `Printer.IndentRoundTrip` | derive/printer.go:109-119 | `In` then `Out` does not panic and leaves indentation, body, imports and content flag as they were |
| `Printer.Printer.HasContent` | derive/printer.go:121-123 | returns the content flag |
| `Printer.CollectImports` | derive/printer.go:134-139 | one path per map entry, the paths being exactly the map's values (counted per key); every path has a remembered qualifier, and that qualifier is a key naming it |
| `Printer.WriteImportLine` | derive/printer.go:142-147 | the line for one path is exactly the rendered import line: a bare quoted path when the qualifier equals the path, otherwise the qualifier followed by the quoted path |
| `Printer.WriteImportLines` | derive/printer.go:141-148 | one rendered line per sorted path, in order, each qualified by the key remembered for its path; the text is empty exactly when there are no paths |
| `Printer.WriteImportBlock` | derive/printer.go:131-150 | for a non-empty registry, the block is the rendered import block of lines that satisfy `ImportLinesOf` for that registry, and it is never empty |
| `Printer.UnqualifiedExactlyWhenQualIsPath` | derive/printer.go:143-147 | a line is written as a bare quoted path exactly when its qualifier equals its path |
| `Printer.Printer.WriteTo` | derive/printer.go:125-156 | the output is the generated-code header, a blank line and `package <name>`, then the import block (only when there are imports), then the body verbatim; the block has one line per map entry, paths in non-decreasing order, each qualifier a key naming that path, and all lines of one path with the same qualifier; the output always starts with the header and ends with the body, and is exactly these two when there are no imports; afterwards the body buffer is empty and the other fields are unchanged |
| `Printer.PathColumnIsDeterministic` | derive/printer.go:134-148 | any two renderings of the same registry list the same paths in the same order |
| `Printer.RenderingIsDeterministicWhenInjective` | derive/printer.go:134-148 | when no path is registered under two keys, any two renderings of the same registry are identical |

## Left out

- `fmt.Fprintf` formatting in `P` (line 106): the text is treated as already formatted, and varargs and `%` verbs are not modelled.
- The `io.Writer` side of `WriteTo` (lines 151-156) is left out: byte counts, write errors and stopping at the first error. The model returns the text that would be written. It always drains the body the way `bytes.Buffer.WriteTo` does on success (line 155), including the case where the write of the header fails and the source returns before touching the body.
- `unicode.IsLetter` and `unicode.IsDigit` (line 50) are restricted to ASCII. A non-ASCII letter or digit becomes `_` in this model, while Go keeps it.
- Strings are sequences of characters (runes), not UTF-8 bytes. Invalid UTF-8 is not modelled, and the length kept by `MakeFullpath` is counted in characters.
- Go's map iteration order (line 136) is left unspecified: `CollectImports` may visit the keys in any order. For that reason no contract promises byte-identical output when a path has two keys.
- Printer.Printer.WriteTo: its contract fixes the output only up to the map iteration order. It does not say which of a path's keys `pathToQual` keeps when two keys name the same path.
- Panics end the Go program. The model returns a `Panic` result instead and says the state that remains; nothing after that matters in the source.
- The `Printer` interface (lines 27-35) is only a method set and has no logic.
